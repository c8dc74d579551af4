/** Cutting a conversation history without breaking it: `trim_history` of
    `src/agent/agent.rs`, `compute_split_index`, `pairing_safe_cut` and the rebuilding
    step of compaction in `src/agent/compaction.rs`. */
module History {
  import opened Text
  import opened Messages
  import opened ToolFrames

  // ---------------------------------------------------------------------------
  // Selecting entries

  function Systems(h: seq<Message>): seq<Message> {
    if h == [] then [] else (if IsSystem(h[0]) then [h[0]] else []) + Systems(h[1..])
  }

  function Others(h: seq<Message>): seq<Message> {
    if h == [] then [] else (if IsSystem(h[0]) then [] else [h[0]]) + Others(h[1..])
  }

  function Users(h: seq<Message>): nat {
    if h == [] then 0 else (if IsUser(h[0]) then 1 else 0) + Users(h[1..])
  }

  lemma SelectAppend(a: seq<Message>, b: seq<Message>)
    ensures Systems(a + b) == Systems(a) + Systems(b)
    ensures Others(a + b) == Others(a) + Others(b)
    ensures Users(a + b) == Users(a) + Users(b)
  {
    SystemsAppend(a, b);
    OthersAppend(a, b);
    UsersAppend(a, b);
  }

  lemma {:induction false} SystemsAppend(a: seq<Message>, b: seq<Message>)
    ensures Systems(a + b) == Systems(a) + Systems(b)
  {
    if a == [] {
      assert a + b == b;
    } else {
      assert (a + b)[1..] == a[1..] + b;
      SystemsAppend(a[1..], b);
      Assoc(if IsSystem(a[0]) then [a[0]] else [], Systems(a[1..]), Systems(b));
    }
  }

  lemma {:induction false} OthersAppend(a: seq<Message>, b: seq<Message>)
    ensures Others(a + b) == Others(a) + Others(b)
  {
    if a == [] {
      assert a + b == b;
    } else {
      assert (a + b)[1..] == a[1..] + b;
      OthersAppend(a[1..], b);
      Assoc(if IsSystem(a[0]) then [] else [a[0]], Others(a[1..]), Others(b));
    }
  }

  lemma {:induction false} UsersAppend(a: seq<Message>, b: seq<Message>)
    ensures Users(a + b) == Users(a) + Users(b)
  {
    if a == [] {
      assert a + b == b;
    } else {
      assert (a + b)[1..] == a[1..] + b;
      UsersAppend(a[1..], b);
    }
  }

  /** Selecting is filtering: by the role of a chat entry alone, in order. */
  lemma SelectLast(h: seq<Message>, m: Message)
    ensures Systems(h + [m]) == Systems(h) + (if m.Chat? && m.chat.role == System then [m] else [])
    ensures Others(h + [m]) == Others(h) + (if m.Chat? && m.chat.role == System then [] else [m])
    ensures Users(h + [m]) == Users(h) + (if m.Chat? && m.chat.role == User then 1 else 0)
  {
    SelectAppend(h, [m]);
    assert [m][1..] == [];
  }

  predicate AllSystem(h: seq<Message>) {
    forall i :: 0 <= i < |h| ==> IsSystem(h[i])
  }

  predicate NoSystem(h: seq<Message>) {
    forall i :: 0 <= i < |h| ==> !IsSystem(h[i])
  }

  lemma {:induction false} SelectAll(h: seq<Message>)
    ensures AllSystem(h) ==> Systems(h) == h && Others(h) == [] && Users(h) == 0
    ensures NoSystem(h) ==> Systems(h) == [] && Others(h) == h
  {
    if h != [] {
      SelectAll(h[1..]);
      assert h == [h[0]] + h[1..];
    }
  }

  lemma SelectKinds(h: seq<Message>)
    ensures AllSystem(Systems(h)) && NoSystem(Others(h))
    ensures |h| == |Systems(h)| + |Others(h)|
  {}

  // ---------------------------------------------------------------------------
  // What a well-formed history is

  /** All system messages come before all others. */
  predicate SystemFirst(h: seq<Message>) {
    forall i, j :: 0 <= i < j < |h| && IsSystem(h[j]) ==> IsSystem(h[i])
  }

  /** Every result entry directly follows the calls it answers. */
  predicate Paired(h: seq<Message>) {
    forall i :: 0 <= i < |h| && h[i].ToolResults? ==> i > 0 && h[i - 1].ToolCalls?
  }

  /** Every call entry is directly followed by its results: a result entry, or the user
      message the XML dispatcher writes, known by its heading. */
  predicate Answered(h: seq<Message>) {
    forall i :: 0 <= i < |h| && h[i].ToolCalls? ==> i + 1 < |h| && (h[i + 1].ToolResults? || IsXmlResults(h[i + 1]))
  }

  predicate WellFormed(h: seq<Message>) {
    SystemFirst(h) && Paired(h) && Answered(h) && (h != [] ==> IsSystem(h[0]))
  }

  /** A system-first history is its system messages, then the rest. */
  lemma {:induction false} SystemFirstSplits(h: seq<Message>)
    requires SystemFirst(h)
    ensures h == Systems(h) + Others(h)
  {
    if h != [] {
      assert h == [h[0]] + h[1..];
      if IsSystem(h[0]) {
        SystemFirstSplits(h[1..]);
      } else {
        assert NoSystem(h);
        SelectAll(h);
      }
    }
  }

  lemma SystemFirstJoin(a: seq<Message>, b: seq<Message>)
    requires AllSystem(a) && NoSystem(b)
    ensures SystemFirst(a + b) && Systems(a + b) == a && Others(a + b) == b
  {
    SelectAll(a);
    SelectAll(b);
    SelectAppend(a, b);
  }

  // ---------------------------------------------------------------------------
  // Trimming

  /** `pairing_safe_cut`: past every result the cut would orphan. */
  function SafeCut(h: seq<Message>, cut: nat): (r: nat)
    ensures cut <= r
    ensures cut <= |h| ==> r <= |h|
    decreases |h| - cut
  {
    if cut < |h| && h[cut].ToolResults? then SafeCut(h, cut + 1) else cut
  }

  method PairingSafeCut(h: seq<Message>, cut: nat) returns (idx: nat)
    ensures idx == SafeCut(h, cut)
  {
    idx := cut;
    while idx < |h| && h[idx].ToolResults?
      invariant cut <= idx && SafeCut(h, idx) == SafeCut(h, cut)
      decreases |h| - idx
    {
      idx := idx + 1;
    }
  }

  /** `trim_history` with a cap of `max` entries. */
  function TrimTo(h: seq<Message>, max: nat): seq<Message> {
    if |h| <= max then h
    else
      Systems(h) + KeptOthers(Others(h), max)
  }

  /** `s` is what a provider accepts of the other messages under the cap: a suffix of at
      most `max` entries that does not open with a tool result. */
  predicate Keepable(s: seq<Message>, others: seq<Message>, max: nat) {
    |s| <= |others| && s == others[|others| - |s|..] && |s| <= max && (s != [] ==> !s[0].ToolResults?)
  }

  lemma TrimIs(h: seq<Message>, max: nat)
    ensures TrimTo(h, max) == if |h| <= max then h else Systems(h) + KeptOthers(Others(h), max)
  {}

  lemma {:induction false} SafeCutStops(h: seq<Message>, cut: nat)
    requires cut <= |h|
    ensures var r := SafeCut(h, cut);
      && (r < |h| ==> !h[r].ToolResults?) && forall i :: cut <= i < r ==> h[i].ToolResults?
    decreases |h| - cut
  {
    if cut < |h| && h[cut].ToolResults? {
      SafeCutStops(h, cut + 1);
    }
  }

  /** Trimming any history over the cap keeps every system message in order, then the
      longest suffix of the others that fits and does not open with a result; others that
      all fit are all kept. A history within the cap is left as it is. */
  lemma TrimKeepsLongest(h: seq<Message>, max: nat)
    ensures |h| <= max ==> TrimTo(h, max) == h
    ensures |h| > max ==>
      var others, kept := Others(h), Others(TrimTo(h, max));
      && TrimTo(h, max) == Systems(h) + kept
      && (|others| <= max ==> kept == others)
      && (|others| > max ==> Keepable(kept, others, max) && forall s :: Keepable(s, others, max) ==> |s| <= |kept|)
  {
    if |h| > max {
      SelectKinds(h);
      SystemFirstJoin(Systems(h), KeptOthers(Others(h), max));
      if |Others(h)| > max { KeptIsLongest(Others(h), max); }
    }
  }

  /** The others that a trim leaves. */
  function KeptOthers(others: seq<Message>, max: nat): seq<Message> {
    others[(if |others| > max then SafeCut(others, |others| - max) else 0)..]
  }

  lemma KeptIs(others: seq<Message>, max: nat)
    ensures |others| > max ==> KeptOthers(others, max) == others[SafeCut(others, |others| - max)..]
    ensures |others| <= max ==> KeptOthers(others, max) == others
  {}

  lemma KeptIsSuffix(others: seq<Message>, max: nat)
    ensures var kept := KeptOthers(others, max); |kept| <= |others| && kept == others[|others| - |kept|..]
    ensures NoSystem(others) ==> NoSystem(KeptOthers(others, max))
  {}

  lemma KeptStart(others: seq<Message>, max: nat)
    requires |others| > max || (others != [] ==> !others[0].ToolResults?)
    ensures KeptOthers(others, max) != [] ==> !KeptOthers(others, max)[0].ToolResults?
  {
    if |others| > max { SafeCutStops(others, |others| - max); }
  }

  lemma KeptIsLongest(others: seq<Message>, max: nat)
    requires |others| > max || (others != [] ==> !others[0].ToolResults?)
    ensures Keepable(KeptOthers(others, max), others, max)
    ensures forall s :: Keepable(s, others, max) ==> |s| <= |KeptOthers(others, max)|
  {
    var cut := if |others| > max then |others| - max else 0;
    SafeCutStops(others, cut);
    forall s | Keepable(s, others, max)
      ensures |s| <= |KeptOthers(others, max)|
    {
      assert s != [] ==> s[0] == others[|others| - |s|];
    }
  }

  /** The others never open with a result: what is before them is a system message. */
  lemma OthersStart(h: seq<Message>)
    requires WellFormed(h)
    ensures Others(h) != [] ==> !Others(h)[0].ToolResults?
  {
    SystemFirstSplits(h);
    SelectKinds(h);
    var n := |Systems(h)|;
    if Others(h) != [] {
      assert h[n] == Others(h)[0];
      assert n > 0 ==> h[n - 1] == Systems(h)[n - 1];
    }
  }

  /** A suffix that does not open with a result, after system messages, stays well formed. */
  lemma SuffixWellFormed(sys: seq<Message>, h: seq<Message>, k: nat)
    requires WellFormed(h) && k <= |h| && NoSystem(h[k..]) && AllSystem(sys) && sys != []
    requires k < |h| ==> !h[k].ToolResults?
    ensures WellFormed(sys + h[k..])
  {
    var r, n := sys + h[k..], |sys|;
    assert forall i :: n <= i < |r| ==> r[i] == h[k + i - n];
    forall i | 0 <= i < |r| && r[i].ToolResults?
      ensures i > 0 && r[i - 1].ToolCalls?
    {
      assert h[k + i - n].ToolResults?;
      assert h[k + i - n - 1].ToolCalls?;
    }
    forall i | 0 <= i < |r| && r[i].ToolCalls?
      ensures i + 1 < |r| && (r[i + 1].ToolResults? || IsXmlResults(r[i + 1]))
    {
      assert h[k + i - n].ToolCalls?;
      assert r[i + 1] == h[k + i - n + 1];
    }
    SystemFirstJoin(sys, h[k..]);
  }

  lemma TrimWellFormed(h: seq<Message>, max: nat)
    requires WellFormed(h)
    ensures WellFormed(TrimTo(h, max)) && Systems(TrimTo(h, max)) == Systems(h)
  {
    hide TrimTo, KeptOthers;
    TrimIs(h, max);
    if |h| > max {
      SystemFirstSplits(h);
      SelectKinds(h);
      OthersStart(h);
      var sys, others, kept := Systems(h), Others(h), KeptOthers(Others(h), max);
      KeptIsSuffix(others, max);
      KeptStart(others, max);
      FirstIsSystem(h, sys, others);
      CutOthersWellFormed(h, sys, others, kept);
      SystemFirstJoin(sys, kept);
    }
  }

  lemma FirstIsSystem(h: seq<Message>, sys: seq<Message>, others: seq<Message>)
    requires WellFormed(h) && h != [] && h == sys + others && NoSystem(others)
    ensures sys != []
  {
    WithoutPrefix(h, sys, others);
  }

  lemma WithoutPrefix(h: seq<Message>, sys: seq<Message>, others: seq<Message>)
    requires h == sys + others
    ensures sys == [] ==> h == others
  {}

  /** Cutting the start of the others, short of a result, keeps a history well formed. */
  lemma CutOthersWellFormed(h: seq<Message>, sys: seq<Message>, others: seq<Message>, kept: seq<Message>)
    requires WellFormed(h) && h == sys + others && AllSystem(sys) && NoSystem(others) && sys != []
    requires |kept| <= |others| && kept == others[|others| - |kept|..] && (kept != [] ==> !kept[0].ToolResults?)
    ensures WellFormed(sys + kept) && NoSystem(kept)
  {
    var k := |h| - |kept|;
    SuffixOf(h, sys, others, kept, k);
    assert k < |h| ==> h[k] == kept[0];
    SuffixWellFormed(sys, h, k);
  }

  lemma SuffixOf(h: seq<Message>, sys: seq<Message>, others: seq<Message>, kept: seq<Message>, k: nat)
    requires h == sys + others && |kept| <= |others| && kept == others[|others| - |kept|..] && k == |h| - |kept|
    ensures h[k..] == kept
  {}

  /** Trimming twice is trimming once, on any history, even when the system messages
      alone are over the cap; and the others never exceed it. */
  lemma TrimIdempotent(h: seq<Message>, max: nat)
    ensures TrimTo(TrimTo(h, max), max) == TrimTo(h, max)
    ensures |Others(TrimTo(h, max))| <= max
  {
    SelectKinds(h);
    if |h| > max {
      SystemFirstJoin(Systems(h), KeptOthers(Others(h), max));
      assert KeptOthers(Others(h), max) == KeptOthers(Others(h), max)[0..];
    }
  }

  // ---------------------------------------------------------------------------
  // Compaction

  /** `compute_split_index`: the place of the `keep`-th user message from the end. */
  function SplitIndex(h: seq<Message>, keep: nat): (r: Option<nat>)
    ensures r.Some? ==> r.value < |h|
  {
    if h == [] || keep == 0 then None
    else
      var n := |h| - 1;
      if !IsUser(h[n]) then SplitIndex(h[..n], keep)
      else if keep == 1 then Some(n)
      else SplitIndex(h[..n], keep - 1)
  }

  method ComputeSplitIndex(h: seq<Message>, keepLast: nat) returns (r: Option<nat>)
    ensures r == SplitIndex(h, keepLast)
  {
    var userCount: nat, idx: nat := 0, |h|;
    assert h[..|h|] == h;
    while idx > 0
      invariant idx <= |h|
      invariant keepLast == 0 || userCount < keepLast
      invariant keepLast > 0 ==> SplitIndex(h, keepLast) == SplitIndex(h[..idx], keepLast - userCount)
    {
      idx := idx - 1;
      assert h[..idx + 1][..idx] == h[..idx];
      if IsUser(h[idx]) {
        userCount := userCount + 1;
        if userCount == keepLast {
          return Some(idx);
        }
      }
    }
    r := None;
  }

  /** The split is at a user message with exactly `keep` user messages from there on; it
      is missing exactly when there are fewer than `keep` (not `keep + 1`). */
  lemma {:induction false} SplitIndexSpec(h: seq<Message>, keep: nat)
    ensures SplitIndex(h, keep).None? <==> keep == 0 || Users(h) < keep
    ensures SplitIndex(h, keep).Some? ==>
      var i := SplitIndex(h, keep).value; IsUser(h[i]) && Users(h[i..]) == keep
  {
    if h != [] && keep > 0 {
      var n := |h| - 1;
      assert h == h[..n] + [h[n]];
      SelectAppend(h[..n], [h[n]]);
      assert Users([h[n]]) == if IsUser(h[n]) then 1 else 0;
      var k := if IsUser(h[n]) then keep - 1 else keep;
      if k > 0 {
        SplitIndexSpec(h[..n], k);
        if SplitIndex(h[..n], k).Some? {
          var i := SplitIndex(h[..n], k).value;
          assert h[i..] == h[..n][i..] + [h[n]];
          SelectAppend(h[..n][i..], [h[n]]);
        }
      } else {
        assert h[n..] == [h[n]];
      }
    }
  }

  const ENVELOPE_OPEN: string := "[Compacted summary of earlier conversation]\n\n"
  const ENVELOPE_CLOSE: string := "\n\n[End compacted summary]"

  /** `summary_envelope`. */
  function Envelope(summary: string): Message {
    SystemMessage(ENVELOPE_OPEN + Trim(summary) + ENVELOPE_CLOSE)
  }

  /** What the summarising call gives back. */
  datatype Reply = Summary(text: string) | ProviderError

  /** The history after `compact_streaming`, or none when it fails. */
  function CompactTo(h: seq<Message>, keepLast: nat, reply: Reply): Option<seq<Message>> {
    match SplitIndex(h, if keepLast == 0 then 1 else keepLast)
    case None => None
    case Some(split) =>
      if reply.ProviderError? || Trim(reply.text) == "" then None
      else Some(Systems(h) + [Envelope(reply.text)] + h[split..])
  }

  lemma CompactIs(h: seq<Message>, keepLast: nat, reply: Reply)
    ensures CompactTo(h, keepLast, reply) ==
      match SplitIndex(h, if keepLast == 0 then 1 else keepLast)
      case None => None
      case Some(split) =>
        if reply.ProviderError? || Trim(reply.text) == "" then None
        else Some(Systems(h) + [Envelope(reply.text)] + h[split..])
  {}

  /** A successful compaction of any history keeps the system messages, adds one summary,
      and keeps verbatim a suffix that starts at a user message and holds exactly
      `max(keepLast, 1)` of them; it has room to succeed exactly when there are that many. */
  lemma CompactionShape(h: seq<Message>, keepLast: nat, reply: Reply)
    ensures
      var keep := if keepLast == 0 then 1 else keepLast;
      CompactTo(h, keepLast, reply).Some? <==> Users(h) >= keep && reply.Summary? && !Blank(reply.text)
    ensures CompactTo(h, keepLast, reply).Some? ==>
      var keep := if keepLast == 0 then 1 else keepLast;
      var c, split := CompactTo(h, keepLast, reply).value, SplitIndex(h, keep).value;
      && c == Systems(h) + [Envelope(reply.text)] + h[split..]
      && IsUser(h[split]) && Users(h[split..]) == keep
  {
    var keep := if keepLast == 0 then 1 else keepLast;
    SplitIndexSpec(h, keep);
    if reply.Summary? { TrimTrims(reply.text); }
  }

  /** What stands between an opening and a closing text. */
  function Between(open: string, close: string, s: string): Option<string> {
    if |s| >= |open| + |close| && open <= s && s[|s| - |close|..] == close then Some(s[|open|..|s| - |close|])
    else None
  }

  /** A reader of the message that a compaction leaves. */
  function ReadSummary(m: Message): Option<string> {
    if !IsSystem(m) then None
    else Between("[Compacted summary of earlier conversation]\n\n", "\n\n[End compacted summary]", m.chat.content)
  }

  lemma BetweenReads(open: string, text: string, close: string, s: string)
    requires s == open + text + close
    ensures Between(open, close, s) == Some(text)
  {}

  /** The one entry a compaction adds stands behind the system messages, before the kept
      suffix, and reads as the trimmed summary. */
  lemma SummaryReadsBack(h: seq<Message>, keepLast: nat, reply: Reply)
    requires CompactTo(h, keepLast, reply).Some?
    ensures
      var c, n := CompactTo(h, keepLast, reply).value, |Systems(h)|;
      && n < |c| && c[..n] == Systems(h) && ReadSummary(c[n]) == Some(Trim(reply.text))
      && c[n + 1..] == h[|h| - (|c| - n - 1)..]
  {
    var t := Trim(reply.text);
    BetweenReads("[Compacted summary of earlier conversation]\n\n", t, "\n\n[End compacted summary]", Envelope(reply.text).chat.content);
    var split := SplitIndex(h, if keepLast == 0 then 1 else keepLast).value;
    CompactedParts(Systems(h), Envelope(reply.text), h[split..], Systems(h) + [Envelope(reply.text)] + h[split..]);
  }

  lemma CompactedParts(sys: seq<Message>, e: Message, tail: seq<Message>, c: seq<Message>)
    requires c == sys + [e] + tail
    ensures |c| == |sys| + 1 + |tail| && c[..|sys|] == sys && c[|sys|] == e && c[|sys| + 1..] == tail
  {}

  /** On a well-formed history the kept suffix holds no system message, and the compacted
      history is well formed. */
  lemma CompactionWellFormed(h: seq<Message>, keepLast: nat, reply: Reply)
    requires WellFormed(h)
    ensures CompactTo(h, keepLast, reply).Some? ==>
      var c, split := CompactTo(h, keepLast, reply).value, SplitIndex(h, if keepLast == 0 then 1 else keepLast).value;
      && NoSystem(h[split..])
      && WellFormed(c) && Systems(c) == Systems(h) + [Envelope(reply.text)] && Others(c) == h[split..]
  {
    var keep := if keepLast == 0 then 1 else keepLast;
    SplitIndexSpec(h, keep);
    if CompactTo(h, keepLast, reply).Some? {
      var split := SplitIndex(h, keep).value;
      var sys := Systems(h) + [Envelope(reply.text)];
      SelectKinds(h);
      TailHasNoSystem(h, split);
      SystemFirstJoin(sys, h[split..]);
      SuffixWellFormed(sys, h, split);
    }
  }

  lemma TailHasNoSystem(h: seq<Message>, split: nat)
    requires SystemFirst(h) && split < |h| && IsUser(h[split])
    ensures NoSystem(h[split..])
  {
    forall i | 0 <= i < |h[split..]|
      ensures !IsSystem(h[split..][i])
    {
      assert !IsSystem(h[split]) && h[split..][i] == h[split + i];
    }
  }

  /** On any history, compaction repeats no system message exactly when none stands at or
      after the split: it re-adds them all and also keeps the tail. */
  lemma CompactionRepeats(h: seq<Message>, keepLast: nat, reply: Reply)
    requires CompactTo(h, keepLast, reply).Some?
    ensures
      var split := SplitIndex(h, if keepLast == 0 then 1 else keepLast).value;
      var c := CompactTo(h, keepLast, reply).value;
      && |Systems(c)| == |Systems(h)| + 1 + |Systems(h[split..])|
      && (|Systems(c)| == |Systems(h)| + 1 <==> NoSystem(h[split..]))
  {
    var split := SplitIndex(h, if keepLast == 0 then 1 else keepLast).value;
    var sys := Systems(h) + [Envelope(reply.text)];
    SelectKinds(h);
    SystemsThen(sys, h[split..]);
    NoSystemCount(h[split..]);
  }

  lemma SystemsThen(sys: seq<Message>, tail: seq<Message>)
    requires AllSystem(sys)
    ensures |Systems(sys + tail)| == |sys| + |Systems(tail)|
  {
    SelectAll(sys);
    SystemsAppend(sys, tail);
  }

  lemma {:induction false} NoSystemCount(h: seq<Message>)
    ensures Systems(h) == [] <==> NoSystem(h)
  {
    if h != [] {
      NoSystemCount(h[1..]);
      assert NoSystem(h) <==> !IsSystem(h[0]) && NoSystem(h[1..]) by {
        assert forall i :: 1 <= i < |h| ==> h[i] == h[1..][i - 1];
        assert NoSystem(h) ==> forall i :: 0 <= i < |h[1..]| ==> h[1..][i] == h[i + 1];
      }
    }
  }

  /** The length after compacting any history: one more for the summary, less what was
      summarised, and more for the system messages that come out twice. With nothing to
      summarise a compaction makes the history longer. */
  lemma CompactionLength(h: seq<Message>, keepLast: nat, reply: Reply)
    requires CompactTo(h, keepLast, reply).Some?
    ensures
      var split := SplitIndex(h, if keepLast == 0 then 1 else keepLast).value;
      |CompactTo(h, keepLast, reply).value| == |h| + 1 - |Others(h[..split])| + |Systems(h[split..])|
  {
    var split := SplitIndex(h, if keepLast == 0 then 1 else keepLast).value;
    SplitMessages(h, split);
    SelectAppend(h[..split], h[split..]);
    SelectKinds(h[..split]);
  }

  lemma SplitMessages(h: seq<Message>, k: nat)
    requires k <= |h|
    ensures h[..k] + h[k..] == h
  {}
}
