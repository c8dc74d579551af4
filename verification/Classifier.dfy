/** Choosing a model hint for a message: `classify` of `src/agent/classifier.rs` and
    `classify_model` of `src/agent/agent.rs`. Unicode lower-casing is the function `lower`. */
module Classifier {
  import opened Text

  datatype Rule = Rule(
    hint: string,
    keywords: seq<string>,
    patterns: seq<string>,
    minLength: Option<nat>,
    maxLength: Option<nat>,
    priority: int)

  datatype Config = Config(enabled: bool, rules: seq<Rule>)

  /** The rule's length bounds, in bytes, and one of its keywords or patterns. */
  predicate Matches(rule: Rule, message: string, lower: string -> string) {
    var len := Utf8Len(message);
    && (rule.minLength.Some? ==> rule.minLength.value <= len)
    && (rule.maxLength.Some? ==> len <= rule.maxLength.value)
    && ((exists i :: 0 <= i < |rule.keywords| && Contains(lower(message), lower(rule.keywords[i])))
        || (exists i :: 0 <= i < |rule.patterns| && Contains(message, rule.patterns[i])))
  }

  // ---------------------------------------------------------------------------
  // The reference: a direct search

  /** The best matching rule among the first `n`: a later one only wins with a strictly
      higher priority. */
  function Best(rules: seq<Rule>, n: nat, message: string, lower: string -> string): (r: Option<nat>)
    requires n <= |rules|
    ensures r.Some? ==> r.value < n
  {
    if n == 0 then None
    else
      var before := Best(rules, n - 1, message, lower);
      if !Matches(rules[n - 1], message, lower) then before
      else
        match before
        case None => Some(n - 1)
        case Some(b) => if rules[n - 1].priority > rules[b].priority then Some(n - 1) else before
  }

  /** Rule `a` goes before rule `b`: higher priority, or earlier in the configuration. */
  predicate Ahead(rules: seq<Rule>, a: nat, b: nat)
    requires a < |rules| && b < |rules|
  {
    rules[a].priority > rules[b].priority || (rules[a].priority == rules[b].priority && a < b)
  }

  /** The rule matches, and goes before every other rule that does. */
  predicate IsFirst(rules: seq<Rule>, b: nat, message: string, lower: string -> string) {
    && b < |rules| && Matches(rules[b], message, lower)
    && forall i :: 0 <= i < |rules| && i != b && Matches(rules[i], message, lower) ==> Ahead(rules, b, i)
  }

  // ---------------------------------------------------------------------------
  // What it means that a rule matches

  /** Within the length bounds, a keyword stands in the message when both are lowered, or
      a pattern stands in it as it is. */
  lemma MatchesMeans(rule: Rule, message: string, lower: string -> string)
    ensures Matches(rule, message, lower) <==>
      && !(rule.minLength.Some? && Utf8Len(message) < rule.minLength.value)
      && !(rule.maxLength.Some? && Utf8Len(message) > rule.maxLength.value)
      && ((exists i, k: nat :: 0 <= i < |rule.keywords| && OccursAt(lower(message), lower(rule.keywords[i]), k))
          || (exists i, k: nat :: 0 <= i < |rule.patterns| && OccursAt(message, rule.patterns[i], k)))
  {
    hide Utf8Len;
    if i :| 0 <= i < |rule.keywords| && Contains(lower(message), lower(rule.keywords[i])) {
      assert OccursAt(lower(message), lower(rule.keywords[i]), Find(lower(message), lower(rule.keywords[i])).value);
    }
    if i :| 0 <= i < |rule.patterns| && Contains(message, rule.patterns[i]) {
      assert OccursAt(message, rule.patterns[i], Find(message, rule.patterns[i]).value);
    }
    if i, k: nat :| 0 <= i < |rule.keywords| && OccursAt(lower(message), lower(rule.keywords[i]), k) {
      assert Contains(lower(message), lower(rule.keywords[i]));
    }
    if i, k: nat :| 0 <= i < |rule.patterns| && OccursAt(message, rule.patterns[i], k) {
      assert Contains(message, rule.patterns[i]);
    }
  }

  /** Keywords ignore case: of two messages that lower to the same text and are as long, a
      rule without patterns takes both or neither. */
  lemma KeywordsIgnoreCase(rule: Rule, m1: string, m2: string, lower: string -> string)
    requires rule.patterns == [] && lower(m1) == lower(m2) && Utf8Len(m1) == Utf8Len(m2)
    ensures Matches(rule, m1, lower) <==> Matches(rule, m2, lower)
  {}

  /** Patterns heed it: a rule without keywords does not depend on lower-casing at all. */
  lemma PatternsHeedCase(rule: Rule, message: string, l1: string -> string, l2: string -> string)
    requires rule.keywords == []
    ensures Matches(rule, message, l1) <==> Matches(rule, message, l2)
  {}

  /** The direct search finds the matching rule ahead of all other matching ones. */
  lemma {:induction false} BestIsAhead(rules: seq<Rule>, n: nat, message: string, lower: string -> string)
    requires n <= |rules|
    ensures Best(rules, n, message, lower).None? <==> forall i :: 0 <= i < n ==> !Matches(rules[i], message, lower)
    ensures Best(rules, n, message, lower).Some? ==>
      var b := Best(rules, n, message, lower).value;
      && Matches(rules[b], message, lower)
      && forall i :: 0 <= i < n && i != b && Matches(rules[i], message, lower) ==> Ahead(rules, b, i)
  {
    hide Matches;
    if n > 0 { BestIsAhead(rules, n - 1, message, lower); }
  }

  /** What `classify` returns. */
  function Chosen(config: Config, message: string, lower: string -> string): Option<string> {
    if !config.enabled then None
    else
      match Best(config.rules, |config.rules|, message, lower)
      case None => None
      case Some(b) => Some(config.rules[b].hint)
  }

  // ---------------------------------------------------------------------------
  // The program: a stable sort, then the first match

  /** The rules by descending priority, equal ones in configuration order, as indices. */
  predicate StableOrder(rules: seq<Rule>, order: seq<nat>, n: nat)
    requires n <= |rules|
  {
    && (forall k :: 0 <= k < |order| ==> order[k] < n)
    && (forall i :: 0 <= i < n ==> i in order)
    && (forall k, l :: 0 <= k < l < |order| ==> order[k] < |rules| && order[l] < |rules| && Ahead(rules, order[k], order[l]))
  }

  method SortByPriority(rules: seq<Rule>) returns (order: seq<nat>)
    ensures StableOrder(rules, order, |rules|)
  {
    order := [];
    var n := 0;
    while n < |rules|
      invariant n <= |rules| && StableOrder(rules, order, n)
    {
      var k := |order|;
      while k > 0 && rules[order[k - 1]].priority < rules[n].priority
        invariant 0 <= k <= |order|
        invariant forall j :: k <= j < |order| ==> rules[order[j]].priority < rules[n].priority
      {
        k := k - 1;
      }
      order := InsertAt(rules, order, k, n);
      n := n + 1;
    }
  }

  method InsertAt(rules: seq<Rule>, order: seq<nat>, k: nat, n: nat) returns (r: seq<nat>)
    requires n < |rules| && StableOrder(rules, order, n) && k <= |order|
    requires k > 0 ==> order[k - 1] < |rules| && rules[order[k - 1]].priority >= rules[n].priority
    requires forall j :: k <= j < |order| ==> order[j] < |rules| && rules[order[j]].priority < rules[n].priority
    ensures StableOrder(rules, r, n + 1)
  {
    r := order[..k] + [n] + order[k..];
    assert order == order[..k] + order[k..];
    assert r[k] == n;
    Reordered(rules, order, k, n, r);
  }

  lemma Reordered(rules: seq<Rule>, order: seq<nat>, k: nat, n: nat, r: seq<nat>)
    requires n < |rules| && StableOrder(rules, order, n) && k <= |order| && r == order[..k] + [n] + order[k..]
    requires k > 0 ==> order[k - 1] < |rules| && rules[order[k - 1]].priority >= rules[n].priority
    requires forall j :: k <= j < |order| ==> order[j] < |rules| && rules[order[j]].priority < rules[n].priority
    requires forall i :: i in r <==> i in order || i == n
    ensures StableOrder(rules, r, n + 1)
  {
    InsertedAt(order, k, n, r);
    forall a, b | 0 <= a < b < |r|
      ensures r[a] < |rules| && r[b] < |rules| && Ahead(rules, r[a], r[b])
    {
      AheadOf(rules, order, k, n, if a < k then a else a - 1, if b < k then b else b - 1, a == k, b == k);
    }
  }

  lemma InsertedAt(order: seq<nat>, k: nat, n: nat, r: seq<nat>)
    requires k <= |order| && r == order[..k] + [n] + order[k..]
    ensures |r| == |order| + 1 && r[k] == n
    ensures forall a :: 0 <= a < k ==> r[a] == order[a]
    ensures forall a :: k < a < |r| ==> r[a] == order[a - 1]
  {}

  /** Of two rules in the new order, one of them perhaps the new rule itself. */
  lemma AheadOf(rules: seq<Rule>, order: seq<nat>, k: nat, n: nat, a: int, b: int, newFirst: bool, newLast: bool)
    requires n < |rules| && StableOrder(rules, order, n) && k <= |order|
    requires k > 0 ==> order[k - 1] < |rules| && rules[order[k - 1]].priority >= rules[n].priority
    requires forall j :: k <= j < |order| ==> order[j] < |rules| && rules[order[j]].priority < rules[n].priority
    requires newFirst ==> !newLast && k <= b
    requires newLast ==> a < k
    requires (!newFirst ==> 0 <= a < |order|) && (!newLast ==> 0 <= b < |order|) && (!newFirst && !newLast ==> a < b)
    ensures
      var x, y := if newFirst then n else order[a], if newLast then n else order[b];
      x < |rules| && y < |rules| && Ahead(rules, x, y)
  {
    if newLast && a < k - 1 { assert Ahead(rules, order[a], order[k - 1]); }
  }

  /** `classify`: the first match in the stable order is what the direct search finds, and
      nothing is returned exactly when the rules are off or none matches. */
  method Classify(config: Config, message: string, lower: string -> string) returns (hint: Option<string>)
    ensures hint == Chosen(config, message, lower)
    ensures hint.None? <==> !config.enabled || forall i :: 0 <= i < |config.rules| ==> !Matches(config.rules[i], message, lower)
    ensures hint.Some? ==> exists b: nat :: IsFirst(config.rules, b, message, lower) && hint.value == config.rules[b].hint
  {
    var rules := config.rules;
    BestIsAhead(rules, |rules|, message, lower);
    if !config.enabled || rules == [] {
      return None;
    }
    var order := SortByPriority(rules);
    var k := 0;
    while k < |order|
      invariant k <= |order|
      invariant forall j :: 0 <= j < k ==> !Matches(rules[order[j]], message, lower)
    {
      if Matches(rules[order[k]], message, lower) {
        FirstIsBest(rules, order, k, message, lower);
        assert IsFirst(rules, order[k], message, lower);
        return Some(rules[order[k]].hint);
      }
      k := k + 1;
    }
    forall i | 0 <= i < |rules|
      ensures !Matches(rules[i], message, lower)
    {
      assert i in order;
    }
    hint := None;
  }

  lemma FirstIsBest(rules: seq<Rule>, order: seq<nat>, k: nat, message: string, lower: string -> string)
    requires StableOrder(rules, order, |rules|) && k < |order| && Matches(rules[order[k]], message, lower)
    requires forall j :: 0 <= j < k ==> !Matches(rules[order[j]], message, lower)
    ensures Best(rules, |rules|, message, lower) == Some(order[k])
  {
    BestIsAhead(rules, |rules|, message, lower);
    var b := Best(rules, |rules|, message, lower).value;
    assert b in order;
    var l :| 0 <= l < |order| && order[l] == b;
    assert order[k] < |rules| && order[l] < |rules|;
  }

  lemma OnlyOneFirst(rules: seq<Rule>, a: nat, b: nat, message: string, lower: string -> string)
    requires IsFirst(rules, a, message, lower) && IsFirst(rules, b, message, lower)
    ensures a == b
  {}

  /** `classify_model`: the hint of the first matching rule, and only when it is available. */
  method ClassifyModel(config: Config, available: seq<string>, modelName: string, message: string, lower: string -> string)
    returns (model: string)
    ensures forall b: nat :: config.enabled && IsFirst(config.rules, b, message, lower) ==>
      model == if config.rules[b].hint in available then "hint:" + config.rules[b].hint else modelName
    ensures (!config.enabled || forall i :: 0 <= i < |config.rules| ==> !Matches(config.rules[i], message, lower)) ==> model == modelName
  {
    var hint := Classify(config, message, lower);
    if hint.Some? {
      ghost var b: nat :| IsFirst(config.rules, b, message, lower) && hint.value == config.rules[b].hint;
      forall c: nat | IsFirst(config.rules, c, message, lower)
        ensures c == b
      {
        OnlyOneFirst(config.rules, c, b, message, lower);
      }
      if hint.value in available {
        return "hint:" + hint.value;
      }
    }
    model := modelName;
  }
}
