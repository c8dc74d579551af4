/** The agent, whose methods change its history in place (`src/agent/agent.rs`). */
module AgentState {
  import opened Text
  import opened Messages
  import opened History
  import opened Turns
  import opened Multimodal
  import opened Preparation
  import opened Streaming

  datatype TurnOutcome = PromptFailed | NotSent(cause: NewTurn) | Ran

  datatype CompactOutcome =
    | NothingToCompact
    | CompactionFailed
    | Compacted(summary: string, originalCount: nat, keptCount: nat)

  /** The history a turn starts from: an empty one gets its system prompt first. */
  function Starts(h: seq<Message>, prompt: Option<string>): Option<seq<Message>> {
    if h != [] then Some(h)
    else match prompt case None => None case Some(p) => Some([SystemMessage(p)])
  }

  class Agent {
    var history: seq<Message>
    const cfg: Config

    constructor (cfg: Config)
      ensures history == [] && this.cfg == cfg
    {
      this.cfg := cfg;
      history := [];
    }

    method ClearHistory()
      modifies this
      ensures history == []
    {
      history := [];
    }

    /** Judge the images of a new message together with those of the history. */
    method PrepareNewTurn(content: string) returns (r: NewTurn)
      ensures r == Turns.PrepareNewTurn(cfg, history, content)
    {
      if !cfg.vision {
        return Sendable(content);
      }
      var messages := ProviderMessages(cfg, history);
      messages := messages + [ChatMessage(User, content)];
      var prepared := PrepareMessagesForProvider(messages, cfg.maxImages, cfg.norm);
      match prepared {
        case Ready(ms, _) =>
          var last := if ms == [] then "" else ms[|ms| - 1].content;
          r := if MimesAllowed(cfg, last) then Sendable(last) else BadMime(last);
        case other =>
          r := Refused(other);
      }
    }

    /** The content a stored user turn is put back with. */
    method PreparePriorUserTurn(content: string) returns (text: string)
      ensures text == PriorContent(cfg, history, content)
    {
      var prepared := PrepareNewTurn(content);
      if prepared.Sendable? {
        return prepared.content;
      }
      var cleaned, refs := ParseImageMarkers(content);
      text := cleaned;
      var i := 0;
      ghost var rest := refs;
      while i < |refs|
        invariant i <= |refs| && rest == refs[i..]
        invariant Placeholders(text, rest) == Placeholders(cleaned, refs)
      {
        ghost var before := text;
        if text != "" {
          text := text + "\n";
        }
        text := text + "[image not sent: " + refs[i] + "]";
        assert before == "" ==> before + "[image not sent: " == "" + "[image not sent: ";
        i, rest := i + 1, rest[1..];
      }
    }

    method PushPriorTurns(prior: seq<Prior>)
      modifies this
      ensures history == PushPrior(cfg, old(history), prior)
    {
      var i := 0;
      ghost var rest := prior;
      while i < |prior|
        invariant i <= |prior| && rest == prior[i..]
        invariant PushPrior(cfg, history, rest) == PushPrior(cfg, old(history), prior)
      {
        var m: Message;
        if prior[i].role == "system" {
          m := SystemMessage(prior[i].content);
        } else if prior[i].role == "assistant" {
          m := AssistantMessage(prior[i].content);
        } else {
          var content := PreparePriorUserTurn(prior[i].content);
          m := UserMessage(content);
        }
        assert m == PriorMessage(cfg, history, rest[0]);
        history := history + [m];
        i, rest := i + 1, rest[1..];
      }
    }

    method RestoreHistory(prior: seq<Prior>, prompt: Option<string>) returns (ok: bool)
      modifies this
      ensures history == RestoreTo(cfg, prior, prompt)
      ensures ok <==> prior == [] || prompt.Some? || exists i :: 0 <= i < |prior| && prior[i].role == "system"
    {
      history := [];
      if prior == [] {
        return true;
      }
      if !(exists i :: 0 <= i < |prior| && prior[i].role == "system") {
        if prompt.None? {
          return false;
        }
        history := history + [SystemMessage(prompt.value)];
        assert history == [SystemMessage(prompt.value)];
      }
      PushPriorTurns(prior);
      ok := true;
    }

    method ReseedHistory(turns: seq<Prior>, prompt: Option<string>) returns (ok: bool)
      modifies this
      ensures history == ReseedTo(cfg, old(history), turns, prompt) && ok == prompt.Some?
    {
      if prompt.None? {
        return false;
      }
      history := [];
      history := history + [SystemMessage(prompt.value)];
      assert history == [SystemMessage(prompt.value)];
      PushPriorTurns(turns);
      ok := true;
    }

    /** The conversation moves: the other agent is left without one. */
    method AdoptHistoryFrom(previous: Agent, prompt: Option<string>) returns (ok: bool)
      requires previous != this
      modifies this, previous
      ensures history == AdoptTo(old(history), old(previous.history), prompt) && ok == prompt.Some?
      ensures previous.history == if prompt.Some? then [] else old(previous.history)
      ensures prompt.Some? ==>
        var other := old(previous.history);
        history == [SystemMessage(prompt.value)] + (if other != [] && IsSystem(other[0]) then other[1..] else other)
    {
      if prompt.None? {
        return false;
      }
      var carried := previous.history;
      previous.history := [];
      if carried != [] && IsSystem(carried[0]) {
        carried := carried[1..];
      }
      history := [];
      history := history + [SystemMessage(prompt.value)];
      history := history + carried;
      ok := true;
    }

    method TrimHistory()
      modifies this
      ensures history == TrimTo(old(history), cfg.maxHistory)
    {
      hide TrimTo, SafeCut;
      var max := cfg.maxHistory;
      TrimIs(history, max);
      if |history| <= max {
        return;
      }
      var systemMessages, otherMessages: seq<Message> := [], [];
      var i := 0;
      ghost var rest := history;
      while i < |history|
        invariant i <= |history| && rest == history[i..] && history == old(history)
        invariant systemMessages + Systems(rest) == Systems(history)
        invariant otherMessages + Others(rest) == Others(history)
      {
        if IsSystem(history[i]) {
          Assoc(systemMessages, [history[i]], Systems(rest[1..]));
          assert [] + Others(rest[1..]) == Others(rest[1..]);
          systemMessages := systemMessages + [history[i]];
        } else {
          Assoc(otherMessages, [history[i]], Others(rest[1..]));
          assert [] + Systems(rest[1..]) == Systems(rest[1..]);
          otherMessages := otherMessages + [history[i]];
        }
        i, rest := i + 1, rest[1..];
      }
      assert systemMessages + [] == systemMessages && otherMessages + [] == otherMessages;
      ghost var others := otherMessages;
      if |otherMessages| > max {
        var dropCount := PairingSafeCut(otherMessages, |otherMessages| - max);
        otherMessages := otherMessages[dropCount..];
      }
      assert otherMessages == KeptOthers(others, max);
      history := systemMessages;
      history := history + otherMessages;
    }

    /** `compact_streaming`, given what the summarising call answered and how many chunks
        the event receiver takes; a failure leaves the history as it was. */
    method CompactStreaming(keepLast: nat, reply: Reply, hasSender: bool, accepts: nat)
      returns (r: CompactOutcome, sent: seq<string>)
      modifies this
      ensures match CompactTo(old(history), keepLast, reply)
        case None => history == old(history) && !r.Compacted? && sent == []
        case Some(c) => history == c && r == Compacted(reply.text, |old(history)|, |history|) && Concat(sent) <= reply.text
      ensures r.Compacted? ==> |Systems(old(history))| < |history| && ReadSummary(history[|Systems(old(history))|]) == Some(Trim(reply.text))
      ensures r.Compacted? && hasSender && |Chunks(reply.text)| <= accepts ==> Concat(sent) == reply.text
      ensures r.NothingToCompact? <==> Users(old(history)) < (if keepLast == 0 then 1 else keepLast)
    {
      hide CompactTo, SplitIndex, Chunks, ReadSummary, Envelope, Systems;
      CompactIs(history, keepLast, reply);
      sent := [];
      var keep := if keepLast == 0 then 1 else keepLast;
      var originalCount := |history|;
      SplitIndexSpec(history, keep);
      var split := ComputeSplitIndex(history, keep);
      if split.None? {
        return NothingToCompact, [];
      }
      if reply.ProviderError? || Trim(reply.text) == "" {
        return CompactionFailed, [];
      }
      sent := StreamSummaryAsChunks(reply.text, hasSender, accepts);
      SentIsPrefix(reply.text, accepts);
      SummaryReadsBack(history, keepLast, reply);
      ChunksAreTheSummary(reply.text);
      var kept := history[split.value..];
      var originalSystem := Systems(history);
      history := [];
      history := history + originalSystem;
      history := history + [Envelope(reply.text)];
      history := history + kept;
      r := Compacted(reply.text, originalCount, |history|);
    }

    /** `turn_inner` on an enriched message; the tool loop appends what `run` says. */
    method TurnInner(enriched: string, prompt: Option<string>, run: LoopRun) returns (outcome: TurnOutcome)
      modifies this
      ensures history == TurnTo(cfg, old(history), enriched, prompt, run)
      ensures outcome.PromptFailed? <==> old(history) == [] && prompt.None?
      ensures outcome.Ran? <==>
        && Starts(old(history), prompt).Some?
        && Turns.PrepareNewTurn(cfg, Starts(old(history), prompt).value, enriched).Sendable?
      ensures outcome.NotSent? ==> Users(history) == Users(old(history))
    {
      if history == [] {
        if prompt.None? {
          return PromptFailed;
        }
        history := history + [SystemMessage(prompt.value)];
        assert history == [SystemMessage(prompt.value)] && Users(history) == 0;
      }
      var prepared := PrepareNewTurn(enriched);
      if !prepared.Sendable? {
        return NotSent(prepared);
      }
      history := history + [UserMessage(prepared.content)];
      history := history + LoopEntries(cfg, run);
      TrimHistory();
      outcome := Ran;
    }
  }
}
