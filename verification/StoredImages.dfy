/** Images that were prepared once: `turn_inner` and `push_prior_turns` of
    `src/agent/agent.rs` store data URIs, so that no file is needed again. What a later
    turn asks for is judged by `later`, a reader that may have lost every file. */
module StoredImages {
  import opened Text
  import opened Messages
  import opened History
  import opened Multimodal
  import opened Preparation
  import opened Clearing
  import opened ToolFrames
  import opened Turns
  import opened Runs
  import opened ImageCap

  /** `later` still takes every data URI that `norm` ever gave. */
  ghost predicate Keeps(later: Normaliser, norm: Normaliser) {
    forall r :: norm(r).Some? ==> later(norm(r).value) == norm(r)
  }

  /** Only references without an opening bracket, as data URIs are, are taken as they stand. */
  ghost predicate TakesPlain(later: Normaliser) {
    forall r :: later(r) == Some(r) ==> '[' !in r
  }

  function TakenBy(later: Normaliser): string -> bool {
    r => later(r) == Some(r)
  }

  lemma TakesNoBracket(later: Normaliser)
    requires TakesPlain(later)
    ensures NoBracket(TakenBy(later))
  {}

  /** The text asks for nothing but data URIs that are taken as they are. */
  predicate Settled(content: string, later: Normaliser) {
    AllGood(content, TakenBy(later))
  }

  /** What a provider sees of the entry as user messages is settled: a user message, and
      for the XML dispatcher stored results too. */
  predicate SettledEntry(m: Messages.Message, xml: bool, later: Normaliser) {
    && (IsUser(m) ==> Settled(m.chat.content, later))
    && (m.ToolResults? && xml ==> Settled(HEADING + RenderAll(IdBlocks(m.results)), later))
  }

  predicate SettledHistory(h: seq<Messages.Message>, xml: bool, later: Normaliser) {
    forall i :: 0 <= i < |h| ==> SettledEntry(h[i], xml, later)
  }

  predicate SettledMessages(ms: seq<ChatMessage>, later: Normaliser) {
    forall i :: 0 <= i < |ms| && ms[i].role == User ==> Settled(ms[i].content, later)
  }

  // ---------------------------------------------------------------------------
  // Settled messages can always be prepared

  lemma {:induction false} SettledNormalise(refs: seq<string>, later: Normaliser)
    requires forall i :: 0 <= i < |refs| ==> later(refs[i]) == Some(refs[i])
    ensures NormaliseRefs(refs, later) == Uris(refs)
  {
    if refs != [] {
      assert forall i :: 0 <= i < |refs[1..]| ==> refs[1..][i] == refs[i + 1];
      SettledNormalise(refs[1..], later);
      assert [refs[0]] + refs[1..] == refs;
    }
  }

  lemma SettledOne(m: ChatMessage, later: Normaliser)
    requires m.role == User ==> Settled(m.content, later)
    ensures PrepareOne(m, later).One?
  {
    if m.role == User {
      var refs := Parse(m.content).refs;
      assert forall i :: 0 <= i < |refs| ==> TakenBy(later)(refs[i]);
      SettledNormalise(refs, later);
    }
  }

  lemma {:induction false} SettledPrepare(ms: seq<ChatMessage>, later: Normaliser)
    requires SettledMessages(ms, later)
    ensures PrepareAll(ms, later).Messages?
  {
    if ms != [] {
      assert forall i :: 0 <= i < |ms[1..]| ==> ms[1..][i] == ms[i + 1];
      SettledPrepare(ms[1..], later);
      SettledOne(ms[0], later);
    }
  }

  lemma SettledMessagesAppend(a: seq<ChatMessage>, b: seq<ChatMessage>, later: Normaliser)
    requires SettledMessages(a, later) && SettledMessages(b, later)
    ensures SettledMessages(a + b, later)
  {}

  lemma {:induction false} ResultsSettled(cfg: Config, results: seq<ToolResult>, later: Normaliser)
    ensures SettledMessages(ResultMessages(cfg, results), later)
  {
    if results != [] {
      ResultsSettled(cfg, results[1..], later);
      SettledMessagesAppend([ChatMessage(Tool, cfg.encodeResult(results[0]))], ResultMessages(cfg, results[1..]), later);
    }
  }

  /** The provider sees only what is settled. */
  lemma {:induction false} ProviderSettled(cfg: Config, h: seq<Messages.Message>, later: Normaliser)
    requires SettledHistory(h, !cfg.native, later)
    ensures SettledMessages(ProviderMessages(cfg, h), later)
  {
    if h != [] {
      assert forall i :: 0 <= i < |h[1..]| ==> h[1..][i] == h[i + 1];
      ProviderSettled(cfg, h[1..], later);
      assert SettledEntry(h[0], !cfg.native, later);
      if h[0].ToolResults? && cfg.native { ResultsSettled(cfg, h[0].results, later); }
      SettledMessagesAppend(EntryMessages(cfg, h[0]), ProviderMessages(cfg, h[1..]), later);
    }
  }

  // ---------------------------------------------------------------------------
  // What is stored is settled

  lemma {:induction false} GivenIsKept(refs: seq<string>, norm: Normaliser, later: Normaliser)
    requires Keeps(later, norm) && NormaliseRefs(refs, norm).Uris?
    ensures var uris := NormaliseRefs(refs, norm).uris; forall i :: 0 <= i < |uris| ==> later(uris[i]) == Some(uris[i])
  {
    if refs != [] {
      GivenIsKept(refs[1..], norm, later);
      var uris, rest := NormaliseRefs(refs, norm).uris, NormaliseRefs(refs[1..], norm).uris;
      assert uris == [norm(refs[0]).value] + rest;
    }
  }

  /** A run of markers on a line of its own opens a bracket. */
  lemma TailOpens(refs: seq<string>)
    requires refs != []
    ensures Opens(Tail("\n\n", refs))
  {
    var r, rest := refs[0], Tail("\n", refs[1..]);
    var a, y := "\n\n" + MARKER, r + "]" + rest;
    TailHead("\n\n", refs, r, rest);
    Assoc("\n\n", MARKER + r + "]", rest);
    NewParts("", "\n\n", r, rest, "" + Tail("\n\n", refs), y);
    assert Tail("\n\n", refs) == a + y;
    assert a[2] == '[' && ']' !in a;
    assert y[|r|] == ']';
    LineOpens(a, y, a + y);
  }

  lemma ComposedSettled(t: string, uris: seq<string>, later: Normaliser)
    requires Trim(t) == t && uris != [] && GoodRefs(uris) && TakesPlain(later)
    requires forall i :: 0 <= i < |uris| ==> later(uris[i]) == Some(uris[i])
    ensures Settled(Compose(t, uris), later) <==> Fine(t, TakenBy(later))
  {
    hide Pieces, References, CopiedText, Compose, Tail, Quiet, Trim;
    var sep := if t == "" then "" else "\n\n";
    ComposeIsTail(t, uris, t, sep);
    EmptyIsQuiet();
    QuietParses("", sep, uris);
    var z := Tail(sep, uris);
    assert "" + z == z;
    AllTaken(z, uris, later);
    if t == "" {
      GoodNone("", TakenBy(later));
    } else {
      TakesNoBracket(later);
      TailOpens(uris);
      GoodSplits(t, z, TakenBy(later));
    }
  }

  lemma AllTaken(z: string, uris: seq<string>, later: Normaliser)
    requires References(Pieces(z)) == uris && forall i :: 0 <= i < |uris| ==> later(uris[i]) == Some(uris[i])
    ensures Settled(z, later)
  {}

  /** A prepared message asks for nothing that a reader without any of the files cannot
      give, exactly when every marker of its cleaned text is closed and every reference of
      that text is itself a data URI. */
  lemma StoredIsSettled(m: ChatMessage, norm: Normaliser, later: Normaliser)
    requires GivesDataUris(norm) && Keeps(later, norm) && TakesPlain(later)
    requires PrepareOne(m, norm).One? && m.role == User && Parse(m.content).refs != []
    ensures Settled(PrepareOne(m, norm).message.content, later) <==> Fine(Parse(m.content).cleaned, TakenBy(later))
  {
    var p := Parse(m.content);
    UrisAreGood(p.refs, norm);
    GivenIsKept(p.refs, norm, later);
    TrimTrims(CopiedText(Pieces(m.content)));
    ComposedSettled(p.cleaned, NormaliseRefs(p.refs, norm).uris, later);
  }

  lemma NothingAsked(content: string, later: Normaliser)
    requires CountRefs(content) == 0
    ensures Settled(content, later)
  {}

  /** The text beside the images, if there are any, is fine. Without vision the message is
      stored as it is. */
  predicate KeptTurn(cfg: Config, content: string, later: Normaliser) {
    if cfg.vision then Parse(content).refs == [] || Fine(Parse(content).cleaned, TakenBy(later))
    else Settled(content, later)
  }

  lemma SentIsSettled(cfg: Config, h: seq<Messages.Message>, content: string, later: Normaliser)
    requires GivesDataUris(cfg.norm) && Keeps(later, cfg.norm) && TakesPlain(later)
    requires KeptTurn(cfg, content, later) && Turns.PrepareNewTurn(cfg, h, content).Sendable?
    ensures Settled(Turns.PrepareNewTurn(cfg, h, content).content, later)
  {
    if cfg.vision {
      var m, pm := ChatMessage(User, content), ProviderMessages(cfg, h);
      CountOneMore(pm, m);
      if CountImages(pm + [m]) > 0 { PrepareAllLast(pm, m, cfg.norm); }
      if Parse(content).refs != [] { StoredIsSettled(m, cfg.norm, later); }
    }
  }

  // ---------------------------------------------------------------------------
  // Histories

  lemma SettledAppend(a: seq<Messages.Message>, b: seq<Messages.Message>, xml: bool, later: Normaliser)
    requires SettledHistory(a, xml, later) && SettledHistory(b, xml, later)
    ensures SettledHistory(a + b, xml, later)
  {}

  lemma SettledSuffix(h: seq<Messages.Message>, k: nat, xml: bool, later: Normaliser)
    requires SettledHistory(h, xml, later) && k <= |h|
    ensures SettledHistory(h[k..], xml, later)
  {
    assert forall i :: 0 <= i < |h[k..]| ==> h[k..][i] == h[k + i];
  }

  lemma SystemsSettled(h: seq<Messages.Message>, xml: bool, later: Normaliser)
    requires AllSystem(h)
    ensures SettledHistory(h, xml, later)
  {
    assert forall i :: 0 <= i < |h| ==> IsSystem(h[i]);
  }

  lemma {:induction false} OthersSettled(h: seq<Messages.Message>, xml: bool, later: Normaliser)
    requires SettledHistory(h, xml, later)
    ensures SettledHistory(Others(h), xml, later)
  {
    if h != [] {
      SettledSuffix(h, 1, xml, later);
      OthersSettled(h[1..], xml, later);
      SettledAppend(if IsSystem(h[0]) then [] else [h[0]], Others(h[1..]), xml, later);
    }
  }

  lemma TrimSettled(h: seq<Messages.Message>, max: nat, xml: bool, later: Normaliser)
    requires SettledHistory(h, xml, later)
    ensures SettledHistory(TrimTo(h, max), xml, later)
  {
    if |h| > max {
      var others, kept := Others(h), KeptOthers(Others(h), max);
      SelectKinds(h);
      SystemsSettled(Systems(h), xml, later);
      OthersSettled(h, xml, later);
      KeptIsSuffix(others, max);
      SettledSuffix(others, |others| - |kept|, xml, later);
      SettledAppend(Systems(h), kept, xml, later);
    }
  }

  lemma CompactSettled(h: seq<Messages.Message>, keepLast: nat, reply: Reply, xml: bool, later: Normaliser)
    requires SettledHistory(h, xml, later) && CompactTo(h, keepLast, reply).Some?
    ensures SettledHistory(CompactTo(h, keepLast, reply).value, xml, later)
  {
    var split := SplitIndex(h, if keepLast == 0 then 1 else keepLast).value;
    var sys := Systems(h) + [Envelope(reply.text)];
    SelectKinds(h);
    SystemsSettled(sys, xml, later);
    SettledSuffix(h, split, xml, later);
    SettledAppend(sys, h[split..], xml, later);
  }

  /** What the loop appends is settled: the nudge and the results. With native tool calls,
      for a provider that has them too, the results never matter. */
  predicate KeptLoop(cfg: Config, run: LoopRun, xml: bool, later: Normaliser) {
    && (forall i :: 0 <= i < |run.rounds| ==> SettledEntry(ResultEntry(cfg, run.rounds[i].results), xml, later))
    && match run.ending
      case Nudged(nudge) => Settled(nudge, later)
      case Summarised(nudge, _) => Settled(nudge, later)
      case _ => true
  }

  lemma {:induction false} RoundsSettled(cfg: Config, rounds: seq<Round>, xml: bool, later: Normaliser)
    requires forall i :: 0 <= i < |rounds| ==> SettledEntry(ResultEntry(cfg, rounds[i].results), xml, later)
    ensures SettledHistory(RoundEntries(cfg, rounds), xml, later)
  {
    if rounds != [] {
      assert forall i :: 0 <= i < |rounds[1..]| ==> rounds[1..][i] == rounds[i + 1];
      RoundsSettled(cfg, rounds[1..], xml, later);
      SettledAppend([ToolCalls(Some(rounds[0].text), rounds[0].calls), ResultEntry(cfg, rounds[0].results)], RoundEntries(cfg, rounds[1..]), xml, later);
    }
  }

  lemma LoopSettled(cfg: Config, run: LoopRun, xml: bool, later: Normaliser)
    requires KeptLoop(cfg, run, xml, later)
    ensures SettledHistory(LoopEntries(cfg, run), xml, later)
  {
    RoundsSettled(cfg, run.rounds, xml, later);
    SettledAppend(RoundEntries(cfg, run.rounds), EndingEntries(run.ending), xml, later);
  }

  lemma TurnSettled(cfg: Config, h: seq<Messages.Message>, enriched: string, prompt: Option<string>, run: LoopRun, xml: bool, later: Normaliser)
    requires GivesDataUris(cfg.norm) && Keeps(later, cfg.norm) && TakesPlain(later) && SettledHistory(h, xml, later)
    requires KeptTurn(cfg, enriched, later) && KeptLoop(cfg, run, xml, later)
    ensures SettledHistory(TurnTo(cfg, h, enriched, prompt, run), xml, later)
  {
    if h != [] || prompt.Some? {
      var h0 := if h == [] then [SystemMessage(prompt.value)] else h;
      var t := Turns.PrepareNewTurn(cfg, h0, enriched);
      if t.Sendable? {
        SentIsSettled(cfg, h0, enriched, later);
        LoopSettled(cfg, run, xml, later);
        var sent := h0 + [UserMessage(t.content)];
        SettledAppend(h0, [UserMessage(t.content)], xml, later);
        SettledAppend(sent, LoopEntries(cfg, run), xml, later);
        TrimSettled(sent + LoopEntries(cfg, run), cfg.maxHistory, xml, later);
      }
    }
  }

  /** What is put back for a stored turn is settled, whether it can be prepared or not. */
  predicate KeptPrior(cfg: Config, p: Prior, later: Normaliser) {
    || p.role == "system" || p.role == "assistant"
    || if cfg.vision then
        var parsed := Parse(p.content);
        parsed.refs == [] || (Fine(parsed.cleaned, TakenBy(later)) && FineRefs(parsed.refs, TakenBy(later)))
      else Settled(p.content, later)
  }

  predicate KeptTurns(cfg: Config, prior: seq<Prior>, later: Normaliser) {
    forall i :: 0 <= i < |prior| ==> KeptPrior(cfg, prior[i], later)
  }

  /** A refused stored turn is put back settled, exactly when its text and its references,
      closed by the brackets of their placeholders, are fine. */
  lemma RefusedIsSettled(content: string, later: Normaliser)
    requires TakesPlain(later)
    ensures
      var p := Parse(content);
      Settled(Placeholders(p.cleaned, p.refs), later) <==>
        p.refs == [] || (Fine(p.cleaned, TakenBy(later)) && FineRefs(p.refs, TakenBy(later)))
  {
    var p := Parse(content);
    TakesNoBracket(later);
    PlaceholdersRead(p.cleaned, p.refs, TakenBy(later));
    if p.refs == [] {
      NoReferencesStay(content);
      NothingAsked(p.cleaned, later);
    }
  }

  lemma PriorSettled(cfg: Config, h: seq<Messages.Message>, p: Prior, xml: bool, later: Normaliser)
    requires GivesDataUris(cfg.norm) && Keeps(later, cfg.norm) && TakesPlain(later) && SettledHistory(h, xml, later)
    requires KeptPrior(cfg, p, later)
    ensures SettledHistory(h + [PriorMessage(cfg, h, p)], xml, later)
  {
    var m := PriorMessage(cfg, h, p);
    if IsUser(m) {
      if Turns.PrepareNewTurn(cfg, h, p.content).Sendable? {
        SentIsSettled(cfg, h, p.content, later);
      } else {
        RefusedIsSettled(p.content, later);
      }
    }
    SettledAppend(h, [m], xml, later);
  }

  lemma {:induction false} PushPriorSettled(cfg: Config, h: seq<Messages.Message>, prior: seq<Prior>, xml: bool, later: Normaliser)
    requires GivesDataUris(cfg.norm) && Keeps(later, cfg.norm) && TakesPlain(later) && SettledHistory(h, xml, later)
    requires KeptTurns(cfg, prior, later)
    ensures SettledHistory(PushPrior(cfg, h, prior), xml, later)
    decreases |prior|
  {
    if prior != [] {
      assert KeptPrior(cfg, prior[0], later) && KeptTurns(cfg, prior[1..], later);
      PriorSettled(cfg, h, prior[0], xml, later);
      PushPriorSettled(cfg, h + [PriorMessage(cfg, h, prior[0])], prior[1..], xml, later);
    }
  }

  /** Adoption carries over what every entry asks for. */
  lemma AdoptSettled(h: seq<Messages.Message>, previous: seq<Messages.Message>, prompt: string, xml: bool, later: Normaliser)
    ensures SettledHistory(AdoptTo(h, previous, Some(prompt)), xml, later) <==> SettledHistory(previous, xml, later)
  {
    var r := AdoptTo(h, previous, Some(prompt));
    var tail := r[1..];
    assert r == [SystemMessage(prompt)] + tail;
    if previous != [] && IsSystem(previous[0]) {
      assert previous == [previous[0]] + tail;
      BehindSystem(previous[0], tail, xml, later);
    } else {
      assert previous == tail;
    }
    BehindSystem(SystemMessage(prompt), tail, xml, later);
  }

  lemma BehindSystem(s: Messages.Message, tail: seq<Messages.Message>, xml: bool, later: Normaliser)
    requires IsSystem(s)
    ensures SettledHistory([s] + tail, xml, later) <==> SettledHistory(tail, xml, later)
  {
    var r := [s] + tail;
    assert forall i :: 0 <= i < |tail| ==> tail[i] == r[i + 1];
  }

  // ---------------------------------------------------------------------------
  // Whole runs

  /** The condition on one operation, whose reader gives data URIs that `later` still takes. */
  ghost predicate KeptOp(cfg: Config, op: Op, xml: bool, later: Normaliser) {
    match op
    case Turn(enriched, _, run, norm) =>
      GivesDataUris(norm) && Keeps(later, norm) && KeptTurn(cfg, enriched, later) && KeptLoop(cfg, run, xml, later)
    case Compact(_, _) => true
    case Clear => true
    case Restore(prior, _, norm) => GivesDataUris(norm) && Keeps(later, norm) && KeptTurns(cfg, prior, later)
    case Reseed(turns, _, norm) => GivesDataUris(norm) && Keeps(later, norm) && KeptTurns(cfg, turns, later)
    case Adopt(previous, previousCfg, prompt) => prompt.Some? ==> SettledHistory(Run(previousCfg, previous), xml, later)
  }

  ghost predicate KeptRun(cfg: Config, ops: seq<Op>, xml: bool, later: Normaliser) {
    forall i :: 0 <= i < |ops| ==> KeptOp(cfg, ops[i], xml, later)
  }

  lemma StepSettled(cfg: Config, h: seq<Messages.Message>, op: Op, xml: bool, later: Normaliser)
    requires TakesPlain(later) && SettledHistory(h, xml, later) && KeptOp(cfg, op, xml, later)
    ensures SettledHistory(Step(cfg, h, op), xml, later)
  {
    hide TurnTo, CompactTo, PushPrior, Keeps, TakesPlain;
    match op
    case Turn(enriched, prompt, run, norm) =>
      KeptElsewhere(cfg, norm, run, xml, later);
      TurnSettled(cfg.(norm := norm), h, enriched, prompt, run, xml, later);
    case Compact(keepLast, reply) =>
      if CompactTo(h, keepLast, reply).Some? { CompactSettled(h, keepLast, reply, xml, later); }
    case Clear =>
    case Restore(prior, prompt, norm) => SeedSettled(cfg.(norm := norm), prior, prompt, xml, later);
    case Reseed(turns, prompt, norm) => SeedSettled(cfg.(norm := norm), turns, prompt, xml, later);
    case Adopt(previous, previousCfg, prompt) =>
      if prompt.Some? { AdoptSettled(h, Run(previousCfg, previous), prompt.value, xml, later); }
  }

  /** The results of a round do not depend on the reader. */
  lemma KeptElsewhere(cfg: Config, norm: Normaliser, run: LoopRun, xml: bool, later: Normaliser)
    requires KeptLoop(cfg, run, xml, later)
    ensures KeptLoop(cfg.(norm := norm), run, xml, later)
  {
    assert forall results :: ResultEntry(cfg.(norm := norm), results) == ResultEntry(cfg, results);
  }

  lemma SeedSettled(cfg: Config, prior: seq<Prior>, prompt: Option<string>, xml: bool, later: Normaliser)
    requires GivesDataUris(cfg.norm) && Keeps(later, cfg.norm) && TakesPlain(later) && KeptTurns(cfg, prior, later)
    ensures SettledHistory(PushPrior(cfg, [], prior), xml, later)
    ensures prompt.Some? ==> SettledHistory(PushPrior(cfg, [SystemMessage(prompt.value)], prior), xml, later)
  {
    PushPriorSettled(cfg, [], prior, xml, later);
    if prompt.Some? {
      SystemsSettled([SystemMessage(prompt.value)], xml, later);
      PushPriorSettled(cfg, [SystemMessage(prompt.value)], prior, xml, later);
    }
  }

  /** In every state any run reaches, the session asks for nothing but stored data URIs. */
  lemma {:induction false} RunSettled(cfg: Config, ops: seq<Op>, xml: bool, later: Normaliser)
    requires TakesPlain(later) && KeptRun(cfg, ops, xml, later)
    ensures SettledHistory(Run(cfg, ops), xml, later)
    decreases |ops|
  {
    hide KeptOp, Step, TakesPlain;
    if ops != [] {
      var n := |ops| - 1;
      assert forall i :: 0 <= i < n ==> ops[..n][i] == ops[i];
      RunSettled(cfg, ops[..n], xml, later);
      StepSettled(cfg, Run(cfg, ops[..n]), ops[n], xml, later);
    }
  }

  // ---------------------------------------------------------------------------
  // What a settled session means for the next message

  /** A message whose own images can be read is refused, if at all, for the limit. */
  lemma SettledIsReadable(cfg: Config, h: seq<Messages.Message>, content: string)
    requires SettledHistory(h, !cfg.native, cfg.norm) && NormaliseRefs(Parse(content).refs, cfg.norm).Uris?
    ensures
      var t := Turns.PrepareNewTurn(cfg, h, content);
      t.Refused? <==> cfg.vision && CountImages(ProviderMessages(cfg, h)) + CountRefs(content) > cfg.maxImages
  {
    var m, pm := ChatMessage(User, content), ProviderMessages(cfg, h);
    ProviderSettled(cfg, h, cfg.norm);
    SettledPrepare(pm, cfg.norm);
    PrepareOneMore(pm, m, cfg.norm);
    CountOneMore(pm, m);
  }

  lemma {:induction false} PrepareOneMore(ms: seq<ChatMessage>, m: ChatMessage, norm: Normaliser)
    requires PrepareAll(ms, norm).Messages? && PrepareOne(m, norm).One?
    ensures PrepareAll(ms + [m], norm).Messages?
  {
    var all := ms + [m];
    if ms == [] {
      assert all == [m] && all[1..] == [];
    } else {
      assert all[1..] == ms[1..] + [m];
      PrepareOneMore(ms[1..], m, norm);
    }
  }

  /** A message without images is sent as it is, exactly when what the provider sees of the
      session is within the limit. */
  lemma TextPasses(cfg: Config, h: seq<Messages.Message>, content: string)
    requires SettledHistory(h, !cfg.native, cfg.norm) && Parse(content).refs == []
    ensures Turns.PrepareNewTurn(cfg, h, content) == Sendable(content) <==>
      !cfg.vision || CountImages(ProviderMessages(cfg, h)) <= cfg.maxImages
  {
    hide UserImages;
    var m, pm := ChatMessage(User, content), ProviderMessages(cfg, h);
    SettledIsReadable(cfg, h, content);
    CountOneMore(pm, m);
    if cfg.vision && CountImages(pm + [m]) > 0 && CountImages(pm + [m]) <= cfg.maxImages {
      PrepareAllLast(pm, m, cfg.norm);
    }
  }

  /** After every run, whatever files are gone: a message that can itself be read is
      refused only when the session and it hold more images than the limit. */
  lemma NeverUnreadable(cfg: Config, ops: seq<Op>, later: Normaliser, content: string)
    requires TakesPlain(later) && KeptRun(cfg, ops, !cfg.native, later)
    requires NormaliseRefs(Parse(content).refs, later).Uris?
    ensures
      var c, h := cfg.(norm := later), Run(cfg, ops);
      Turns.PrepareNewTurn(c, h, content).Refused? <==>
        cfg.vision && CountImages(ProviderMessages(c, h)) + CountRefs(content) > cfg.maxImages
  {
    RunSettled(cfg, ops, !cfg.native, later);
    SettledIsReadable(cfg.(norm := later), Run(cfg, ops), content);
  }

  /** After every run, whatever files are gone, a message without images is sent as it is,
      exactly when the session itself is within the limit. */
  lemma TextIsSent(cfg: Config, ops: seq<Op>, later: Normaliser, content: string)
    requires Judged(cfg) && TakesPlain(later) && KeptRun(cfg, ops, false, later) && Parse(content).refs == []
    ensures Turns.PrepareNewTurn(cfg.(norm := later), Run(cfg, ops), content) == Sendable(content) <==>
      UserImages(Run(cfg, ops)) <= cfg.maxImages
  {
    RunSettled(cfg, ops, false, later);
    TextPasses(cfg.(norm := later), Run(cfg, ops), content);
    SeenCount(cfg.(norm := later), Run(cfg, ops));
  }

  /** So it always is, after a run that keeps the limit. */
  lemma TextIsAlwaysSent(cfg: Config, ops: seq<Op>, later: Normaliser, content: string)
    requires Judged(cfg) && TakesPlain(later) && KeptRun(cfg, ops, false, later) && TameRun(cfg, ops)
    requires Parse(content).refs == []
    ensures Turns.PrepareNewTurn(cfg.(norm := later), Run(cfg, ops), content) == Sendable(content)
  {
    RunCap(cfg, ops);
    TextIsSent(cfg, ops, later, content);
  }
}
