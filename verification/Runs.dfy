/** Whole runs of an agent: what holds of its history after any sequence of operations.
    An adopted history is itself the result of a run of another agent, whatever its
    configuration. Each operation that reads images has its own reader `norm`: files come
    and go between operations. */
module Runs {
  import opened Text
  import opened Messages
  import opened History
  import opened Preparation
  import opened Turns

  datatype Op =
    | Turn(enriched: string, prompt: Option<string>, run: LoopRun, norm: Normaliser)
    | Compact(keepLast: nat, reply: Reply)
    | Clear
    | Restore(prior: seq<Prior>, prompt: Option<string>, norm: Normaliser)
    | Reseed(turns: seq<Prior>, prompt: Option<string>, norm: Normaliser)
    | Adopt(previous: seq<Op>, previousCfg: Config, prompt: Option<string>)

  ghost function Step(cfg: Config, h: seq<Message>, op: Op): seq<Message>
    decreases op
  {
    match op
    case Turn(enriched, prompt, run, norm) => TurnTo(cfg.(norm := norm), h, enriched, prompt, run)
    case Compact(keepLast, reply) => (match CompactTo(h, keepLast, reply) case None => h case Some(c) => c)
    case Clear => []
    case Restore(prior, prompt, norm) => RestoreTo(cfg.(norm := norm), prior, prompt)
    case Reseed(turns, prompt, norm) => ReseedTo(cfg.(norm := norm), h, turns, prompt)
    case Adopt(previous, previousCfg, prompt) => AdoptTo(h, Run(previousCfg, previous), prompt)
  }

  /** The history after the operations, from an empty one. */
  ghost function Run(cfg: Config, ops: seq<Op>): seq<Message>
    decreases ops
  {
    if ops == [] then []
    else Step(cfg, Run(cfg, ops[..|ops| - 1]), ops[|ops| - 1])
  }

  lemma LastStep(cfg: Config, ops: seq<Op>, op: Op)
    ensures Run(cfg, ops + [op]) == Step(cfg, Run(cfg, ops), op)
  {
    assert (ops + [op])[..|ops|] == ops;
  }

  /** Restored and reseeded turns put their system turns first, here and in adopted runs. */
  ghost predicate SystemFirstOp(op: Op)
    decreases op
  {
    match op
    case Restore(prior, _, _) => SystemTurnsFirst(prior)
    case Reseed(turns, _, _) => SystemTurnsFirst(turns)
    case Adopt(previous, _, _) => SystemFirstRun(previous)
    case _ => true
  }

  ghost predicate SystemFirstRun(ops: seq<Op>)
    decreases ops
  {
    forall i :: 0 <= i < |ops| ==> SystemFirstOp(ops[i])
  }

  /** Safety over every run: after any operations a non-empty history starts with a system
      message, its system messages come first, and calls and results are paired. */
  lemma {:induction false} RunWellFormed(cfg: Config, ops: seq<Op>)
    requires SystemFirstRun(ops)
    ensures WellFormed(Run(cfg, ops))
    decreases ops
  {
    if ops != [] {
      var n := |ops| - 1;
      assert forall i :: 0 <= i < n ==> ops[..n][i] == ops[i];
      RunWellFormed(cfg, ops[..n]);
      StepWellFormed(cfg, Run(cfg, ops[..n]), ops[n]);
    }
  }

  lemma {:induction false} StepWellFormed(cfg: Config, h: seq<Message>, op: Op)
    requires WellFormed(h) && SystemFirstOp(op)
    ensures WellFormed(Step(cfg, h, op))
    decreases op
  {
    match op
    case Turn(enriched, prompt, run, norm) => TurnKeeps(cfg.(norm := norm), h, enriched, prompt, run);
    case Compact(keepLast, reply) => CompactionWellFormed(h, keepLast, reply);
    case Clear =>
    case Restore(prior, prompt, norm) => RestoreWellFormed(cfg.(norm := norm), prior, prompt);
    case Reseed(turns, prompt, norm) =>
      if prompt.Some? { ReseedWellFormed(cfg.(norm := norm), h, turns, prompt.value); }
    case Adopt(previous, previousCfg, prompt) =>
      RunWellFormed(previousCfg, previous);
      if prompt.Some? { AdoptKeeps(h, Run(previousCfg, previous), prompt.value); }
  }

  /** No restored or reseeded turn is a system turn. */
  ghost predicate SystemFreeOp(op: Op)
    decreases op
  {
    match op
    case Restore(prior, _, _) => forall i :: 0 <= i < |prior| ==> !IsSystemTurn(prior[i])
    case Reseed(turns, _, _) => forall i :: 0 <= i < |turns| ==> !IsSystemTurn(turns[i])
    case Adopt(previous, _, _) => SystemFreeRun(previous)
    case _ => true
  }

  ghost predicate SystemFreeRun(ops: seq<Op>)
    decreases ops
  {
    forall i :: 0 <= i < |ops| ==> SystemFreeOp(ops[i])
  }

  /** Successful compactions since the last reset; an adopted history brings its own. */
  ghost function Compactions(cfg: Config, ops: seq<Op>): nat
    decreases ops
  {
    if ops == [] then 0
    else
      var before := ops[..|ops| - 1];
      CompactionsAfter(Run(cfg, before), Compactions(cfg, before), ops[|ops| - 1])
  }

  ghost function CompactionsAfter(h: seq<Message>, before: nat, op: Op): nat
    decreases op
  {
    match op
    case Turn(_, _, _, _) => before
    case Compact(keepLast, reply) => if CompactTo(h, keepLast, reply).Some? then before + 1 else before
    case Clear => 0
    case Restore(_, _, _) => 0
    case Reseed(_, prompt, _) => if prompt.Some? then 0 else before
    case Adopt(previous, previousCfg, prompt) => if prompt.Some? then Compactions(previousCfg, previous) else before
  }

  lemma {:induction false} SystemFreeIsFirst(op: Op)
    requires SystemFreeOp(op)
    ensures SystemFirstOp(op)
    decreases op
  {
    if op.Adopt? { SystemFreeRunIsFirst(op.previous); }
  }

  lemma {:induction false} SystemFreeRunIsFirst(ops: seq<Op>)
    requires SystemFreeRun(ops)
    ensures SystemFirstRun(ops)
    decreases ops
  {
    forall i | 0 <= i < |ops|
      ensures SystemFirstOp(ops[i])
    {
      SystemFreeIsFirst(ops[i]);
    }
  }

  /** `n` compactions have left their summaries beside the one prompt. */
  predicate Counted(h: seq<Message>, n: nat) {
    |Systems(h)| == (if h == [] then 0 else 1 + n) && (h == [] ==> n == 0)
  }

  /** Over every run without restored system turns, a non-empty history holds exactly one
      system message and one summary per successful compaction since the last reset. */
  lemma {:induction false} SystemsCountCompactions(cfg: Config, ops: seq<Op>)
    requires SystemFreeRun(ops)
    ensures Counted(Run(cfg, ops), Compactions(cfg, ops))
    decreases ops
  {
    if ops != [] {
      var n := |ops| - 1;
      var before := ops[..n];
      assert forall i :: 0 <= i < n ==> before[i] == ops[i];
      SystemsCountCompactions(cfg, before);
      SystemFreeRunIsFirst(before);
      RunWellFormed(cfg, before);
      StepCounted(cfg, Run(cfg, before), Compactions(cfg, before), ops[n]);
    }
  }

  lemma {:induction false} StepCounted(cfg: Config, h: seq<Message>, n: nat, op: Op)
    requires WellFormed(h) && Counted(h, n) && SystemFreeOp(op)
    ensures Counted(Step(cfg, h, op), CompactionsAfter(h, n, op))
    decreases op
  {
    match op
    case Turn(enriched, prompt, run, norm) => TurnKeeps(cfg.(norm := norm), h, enriched, prompt, run);
    case Compact(keepLast, reply) => CompactionWellFormed(h, keepLast, reply);
    case Clear =>
    case Restore(prior, prompt, norm) =>
      if prior != [] && prompt.Some? { PushedCounted(cfg.(norm := norm), prior, prompt.value); }
    case Reseed(turns, prompt, norm) =>
      if prompt.Some? { PushedCounted(cfg.(norm := norm), turns, prompt.value); }
    case Adopt(previous, previousCfg, prompt) =>
      if prompt.Some? {
        SystemsCountCompactions(previousCfg, previous);
        SystemFreeRunIsFirst(previous);
        RunWellFormed(previousCfg, previous);
        AdoptKeeps(h, Run(previousCfg, previous), prompt.value);
      }
  }

  lemma PushedCounted(cfg: Config, prior: seq<Prior>, prompt: string)
    requires forall i :: 0 <= i < |prior| ==> !IsSystemTurn(prior[i])
    ensures Counted(PushPrior(cfg, [SystemMessage(prompt)], prior), 0)
  {
    PushPriorSystems(cfg, [SystemMessage(prompt)], prior);
    PushPriorShape(cfg, [SystemMessage(prompt)], prior);
  }

  /** After a turn that was sent, the entries other than system messages are within the cap. */
  lemma SentTurnIsCapped(cfg: Config, ops: seq<Op>, enriched: string, prompt: string, run: LoopRun, norm: Normaliser)
    requires
      var h := Run(cfg, ops);
      PrepareNewTurn(cfg.(norm := norm), if h == [] then [SystemMessage(prompt)] else h, enriched).Sendable?
    ensures |Others(Run(cfg, ops + [Turn(enriched, Some(prompt), run, norm)]))| <= cfg.maxHistory
  {
    var all, c := ops + [Turn(enriched, Some(prompt), run, norm)], cfg.(norm := norm);
    assert all[..|all| - 1] == ops;
    var h0 := if Run(cfg, ops) == [] then [SystemMessage(prompt)] else Run(cfg, ops);
    var t := PrepareNewTurn(c, h0, enriched);
    TrimIdempotent(h0 + [UserMessage(t.content)] + LoopEntries(c, run), cfg.maxHistory);
  }

  /** A restore with a system turn after another turn does break the order. */
  lemma MiddleSystemTurnBreaks(cfg: Config, norm: Normaliser)
    ensures
      var ops := [Restore([Prior("assistant", "a"), Prior("system", "s")], None, norm)];
      !WellFormed(Run(cfg, ops))
  {
    var prior := [Prior("assistant", "a"), Prior("system", "s")];
    var ops := [Restore(prior, None, norm)];
    assert ops[..0] == [];
    RestoreWellFormed(cfg.(norm := norm), prior, None);
    assert IsSystemTurn(prior[1]) && !IsSystemTurn(prior[0]);
  }
}
