/** Sessions in which no message is sent any more: what `prepare_new_turn` of
    `src/agent/agent.rs` makes of histories that its own operations leave behind, and what
    `adopt_history_from` carries into an agent with another configuration. */
module Blocked {
  import opened Text
  import opened Messages
  import opened Multimodal
  import opened Preparation
  import opened Turns
  import opened Runs
  import opened ImageCap

  // ---------------------------------------------------------------------------
  // A session over the limit

  /** A session with more images than the limit refuses every message, text or not. */
  lemma OverLimitRefuses(cfg: Config, h: seq<Messages.Message>, content: string)
    requires cfg.vision && CountImages(ProviderMessages(cfg, h)) > cfg.maxImages
    ensures var t := Turns.PrepareNewTurn(cfg, h, content); t.Refused? && t.cause.TooManyImages?
  {
    CountOneMore(ProviderMessages(cfg, h), ChatMessage(User, content));
  }

  /** Adoption judges nothing: a session with more images than the new limit is carried
      over whole, and the new agent refuses every message. */
  lemma AdoptedOverLimit(cfg: Config, ops: seq<Op>, previous: seq<Op>, previousCfg: Config, prompt: string, norm: Normaliser, content: string)
    requires cfg.vision && UserImages(Run(previousCfg, previous)) > cfg.maxImages
    ensures
      var h := Run(cfg, ops + [Adopt(previous, previousCfg, Some(prompt))]);
      && UserImages(h) == UserImages(Run(previousCfg, previous))
      && Turns.PrepareNewTurn(cfg.(norm := norm), h, content).Refused?
  {
    hide Run, UserImages, AdoptTo;
    var c, h := cfg.(norm := norm), Run(cfg, ops + [Adopt(previous, previousCfg, Some(prompt))]);
    LastStep(cfg, ops, Adopt(previous, previousCfg, Some(prompt)));
    AdoptCount(Run(cfg, ops), Run(previousCfg, previous), prompt);
    SeenCount(c, h);
    OverLimitRefuses(c, h, content);
  }

  /** Two images, each in a marker on its own line. */
  const TWO_IMAGES: string := "[IMAGE:a]\n[IMAGE:a]"

  /** One turn with two images under a limit of two, then the same agent with a limit of one. */
  lemma LowerLimitBlocks(cfg: Config, norm: Normaliser, u: string, prompt: string, content: string)
    requires Judged(cfg) && cfg.maxImages == 2 && cfg.maxHistory > 1
    requires norm("a") == Some(u) && DataUri(u) && cfg.refAllowed(u)
    ensures
      var turn := Turn(TWO_IMAGES, Some(prompt), LoopRun([], Stopped), norm);
      var small := cfg.(maxImages := 1);
      var h := Run(small, [Adopt([turn], cfg, Some(prompt))]);
      UserImages(h) == 2 && Turns.PrepareNewTurn(small.(norm := norm), h, content).Refused?
  {
    hide Run, UserImages;
    assert TWO_IMAGES == Tail("", ["a", "a"]);
    TwoHeld(cfg, norm, u, prompt, TWO_IMAGES);
    var adopted := Adopt([Turn(TWO_IMAGES, Some(prompt), LoopRun([], Stopped), norm)], cfg, Some(prompt));
    assert [] + [adopted] == [adopted];
    AdoptedOverLimit(cfg.(maxImages := 1), [], [Turn(TWO_IMAGES, Some(prompt), LoopRun([], Stopped), norm)], cfg, prompt, norm, content);
  }

  lemma TwoHeld(cfg: Config, norm: Normaliser, u: string, prompt: string, two: string)
    requires Judged(cfg) && cfg.maxImages == 2 && cfg.maxHistory > 1 && two == Tail("", ["a", "a"])
    requires norm("a") == Some(u) && DataUri(u) && cfg.refAllowed(u)
    ensures UserImages(Run(cfg, [Turn(two, Some(prompt), LoopRun([], Stopped), norm)])) == 2
  {
    hide Run, UserImages, Tail;
    var s, stored := SystemMessage(prompt), Tail("", [u, u]);
    TwoStored(norm, u, two, stored);
    FirstSent(cfg.(norm := norm), s, two, stored);
    FirstTurn(cfg, prompt, two, stored, norm);
    HeldBy(s, stored);
  }

  lemma TwoStored(norm: Normaliser, u: string, two: string, stored: string)
    requires norm("a") == Some(u) && DataUri(u) && two == Tail("", ["a", "a"]) && stored == Tail("", [u, u])
    ensures PrepareOne(ChatMessage(User, two), norm) == One(ChatMessage(User, stored))
    ensures Parse(two).refs == ["a", "a"] && Parse(stored).refs == [u, u]
  {
    hide Parse, Tail;
    GoodA();
    BracketFreeDepth(u, 0);
    PairReads("a");
    PairReads(u);
    TwoRefs(norm, "a", u);
    TwoAlone([u, u]);
  }

  lemma TwoAlone(uris: seq<string>)
    ensures Compose("", uris) == Tail("", uris)
  {}

  lemma TwoRefs(norm: Normaliser, r: string, u: string)
    requires norm(r) == Some(u)
    ensures NormaliseRefs([r, r], norm) == Uris([u, u])
  {
    OneRef(norm, r, u);
    assert [r, r][1..] == [r] && [u] + [u] == [u, u];
  }

  /** Two markers read as their two references, with nothing beside them. */
  lemma PairReads(r: string)
    requires GoodRef(r)
    ensures Parse(Tail("", [r, r])) == Parsed("", [r, r])
  {
    hide Tail, Seps, Pieces, CopiedText, References, Trim;
    EmptyIsQuiet();
    var z, n := Tail("", [r, r]), Seps("", [r, r]);
    QuietParses("", "", [r, r]);
    assert "" + z == z && "" + n == n;
    SepsAreNewlines("", [r, r]);
    TrimDropsNewlines("", n);
  }

  lemma HeldBy(s: Messages.Message, stored: string)
    requires IsSystem(s)
    ensures UserImages([s, UserMessage(stored)]) == CountRefs(stored)
  {
    SingleCount(s);
    SingleCount(UserMessage(stored));
    UserImagesAppend([s], [UserMessage(stored)]);
    assert [s] + [UserMessage(stored)] == [s, UserMessage(stored)];
  }

  // ---------------------------------------------------------------------------
  // A session with an image that cannot be read

  /** One stored message that cannot be prepared again refuses every later one. */
  lemma BlockedBy(cfg: Config, s: Messages.Message, stored: string, content: string)
    requires cfg.vision && IsSystem(s) && PrepareOne(ChatMessage(User, stored), cfg.norm).Unreadable?
    ensures
      var t := Turns.PrepareNewTurn(cfg, [s, UserMessage(stored)], content);
      t.Refused? && (CountRefs(stored) + CountRefs(content) <= cfg.maxImages ==> t.cause.ImageFailed?)
  {
    var h := [s, UserMessage(stored)];
    var a, b, m := s.chat, ChatMessage(User, stored), ChatMessage(User, content);
    FirstMessages(cfg, UserMessage(stored));
    assert h[1..] == [UserMessage(stored)];
    var ms := ProviderMessages(cfg, h) + [m];
    assert ms == [a] + [b] + [m] == [a, b, m];
    ThreeMessages(a, b, m, cfg.norm);
  }

  lemma ThreeMessages(a: ChatMessage, b: ChatMessage, m: ChatMessage, norm: Normaliser)
    requires a.role != User && b.role == User && m.role == User && PrepareOne(b, norm).Unreadable?
    ensures CountImages([a, b, m]) == CountRefs(b.content) + CountRefs(m.content)
    ensures CountRefs(b.content) > 0 && PrepareAll([a, b, m], norm).Broken?
  {
    var ms := [a, b, m];
    assert ms[1..] == [b, m] && ms[1..][1..] == [m] && [m][1..] == [];
    assert CountImages([m]) == CountRefs(m.content);
    assert CountImages([b, m]) == CountRefs(b.content) + CountImages([m]);
  }

  lemma FirstMessages(cfg: Config, s: Messages.Message)
    requires s.Chat?
    ensures ProviderMessages(cfg, [s]) == [s.chat]
  {
    assert [s][1..] == [];
  }

  /** The history after one turn that was sent and to which the loop added nothing. */
  lemma FirstTurn(cfg: Config, prompt: string, content: string, stored: string, norm: Normaliser)
    requires cfg.maxHistory > 1
    requires Turns.PrepareNewTurn(cfg.(norm := norm), [SystemMessage(prompt)], content) == Sendable(stored)
    ensures Run(cfg, [Turn(content, Some(prompt), LoopRun([], Stopped), norm)]) == [SystemMessage(prompt), UserMessage(stored)]
  {
    var s, run, c := SystemMessage(prompt), LoopRun([], Stopped), cfg.(norm := norm);
    assert LoopEntries(c, run) == [];
    assert [s] + [UserMessage(stored)] + [] == [s, UserMessage(stored)];
    var ops := [Turn(content, Some(prompt), run, norm)];
    assert ops[..0] == [];
    assert TurnTo(c, [], content, Some(prompt), run) == [s, UserMessage(stored)];
  }

  lemma FirstSent(cfg: Config, s: Messages.Message, content: string, stored: string)
    requires cfg.vision && IsSystem(s) && 0 < CountRefs(content) <= cfg.maxImages
    requires PrepareOne(ChatMessage(User, content), cfg.norm) == One(ChatMessage(User, stored)) && MimesAllowed(cfg, stored)
    ensures Turns.PrepareNewTurn(cfg, [s], content) == Sendable(stored)
  {
    var m := ChatMessage(User, content);
    FirstMessages(cfg, s);
    TwoMessages(s.chat, m, cfg.norm);
    assert ProviderMessages(cfg, [s]) + [m] == [s.chat, m];
    PrepareAllLast([s.chat], m, cfg.norm);
    assert [s.chat] + [m] == [s.chat, m];
  }

  lemma TwoMessages(a: ChatMessage, m: ChatMessage, norm: Normaliser)
    requires a.role != User && m.role == User && PrepareOne(m, norm).One?
    ensures CountImages([a, m]) == CountRefs(m.content) && PrepareAll([a, m], norm).Messages?
  {
    assert [a, m][1..] == [m] && [m][1..] == [];
    assert CountImages([m]) == CountRefs(m.content);
    assert PrepareAll([m], norm).Messages?;
  }

  /** A marker left open in a text blocks the session: after this one turn, every later
      message is refused, though no file is needed for it and none was lost. */
  lemma LostImageBlocks(cfg: Config, norm: Normaliser, u: string, prompt: string, content: string)
    requires cfg.vision && ReadsOnly(norm, "a", u) && DataUri(u) && cfg.maxImages > 0 && cfg.maxHistory > 1
    requires MimesAllowed(cfg, Compose("[IMAGE:b", [u]))
    ensures
      var h := Run(cfg, [Turn(LEFT_OPEN, Some(prompt), LoopRun([], Stopped), norm)]);
      Turns.PrepareNewTurn(cfg.(norm := norm), h, content).Refused?
  {
    hide Run, Compose;
    var m, s, c := ChatMessage(User, LEFT_OPEN), SystemMessage(prompt), cfg.(norm := norm);
    StoredImageIsLost(norm, u, m);
    var stored := Compose("[IMAGE:b", [u]);
    FirstSent(c, s, m.content, stored);
    FirstTurn(cfg, prompt, m.content, stored, norm);
    BlockedBy(c, s, stored, content);
  }

  /** A provider without vision stores an image as it was named. Adopted by an agent with
      vision whose reader cannot give it, the session refuses every message. */
  lemma RawImageBlocks(cfg: Config, previousCfg: Config, norm: Normaliser, later: Normaliser, prompt: string, content: string)
    requires cfg.vision && !previousCfg.vision && previousCfg.maxHistory > 1 && later("a").None?
    ensures
      var turn := Turn(Wrap("a"), Some(prompt), LoopRun([], Stopped), norm);
      var h := Run(cfg, [Adopt([turn], previousCfg, Some(prompt))]);
      Turns.PrepareNewTurn(cfg.(norm := later), h, content).Refused?
  {
    var s, stored := SystemMessage(prompt), Wrap("a");
    FirstTurn(previousCfg, prompt, stored, stored, norm);
    var turn := Turn(stored, Some(prompt), LoopRun([], Stopped), norm);
    var ops, h := [Adopt([turn], previousCfg, Some(prompt))], [s, UserMessage(stored)];
    assert ops[..0] == [];
    assert h[1..] == [UserMessage(stored)] && [s] + h[1..] == h;
    assert Run(cfg, ops) == h;
    NamesOne(stored);
    OneUnreadable(later, "a", stored);
    BlockedBy(cfg.(norm := later), s, stored, content);
  }

  lemma NamesOne(stored: string)
    requires stored == Wrap("a")
    ensures Parse(stored).refs == ["a"]
  {
    hide Pieces, References, CopiedText, NextMarker;
    GoodA();
    EmptyIsQuiet();
    QuietParses("", "", ["a"]);
    assert Tail("", ["a"]) == stored && "" + stored == stored;
  }
}
