/** The bounded store of per-session grants: `src/approval/session_grants.rs`. */
module SessionGrants {
  import opened Text

  const MAX_GRANT_SESSIONS: nat := 1000

  type GrantMap = map<string, set<string>>

  datatype Kind = Tools | Commands | MediumCommands

  datatype Grants = Grants(tools: GrantMap, commands: GrantMap, mediumCommands: GrantMap) {
    function Of(kind: Kind): GrantMap {
      match kind case Tools => tools case Commands => commands case MediumCommands => mediumCommands
    }

    function With(kind: Kind, m: GrantMap): Grants {
      match kind
      case Tools => this.(tools := m)
      case Commands => this.(commands := m)
      case MediumCommands => this.(mediumCommands := m)
    }
  }

  const EMPTY: Grants := Grants(map[], map[], map[])

  // ---------------------------------------------------------------------------
  // Steps under one lock

  /** Recording names for a session: blank sessions and empty grants are ignored, and so
      is a new session when the map is full. */
  function Insert(m: GrantMap, session: string, names: set<string>): GrantMap {
    if Trim(session) == "" || names == {} then m
    else if session !in m && |m| >= MAX_GRANT_SESSIONS then m
    else m[session := (if session in m then m[session] else {}) + names]
  }

  /** The names a basename records: itself, trimmed, unless blank. */
  function Basenames(name: string): set<string> {
    if Trim(name) == "" then {} else {Trim(name)}
  }

  function Lookup(m: GrantMap, session: string): set<string> {
    if Trim(session) == "" || session !in m then {} else m[session]
  }

  /** One critical section. A `clear` is three `Drop`s, a `clear_all` three `DropAll`s. */
  datatype Event =
    | RecordTools(session: string, tools: set<string>)
    | RecordCommand(session: string, basename: string)
    | RecordMediumCommand(session: string, basename: string)
    | Drop(kind: Kind, session: string)
    | DropAll(kind: Kind)

  predicate IsRecord(e: Event) {
    e.RecordTools? || e.RecordCommand? || e.RecordMediumCommand?
  }

  function KindOf(e: Event): Kind {
    match e
    case RecordTools(_, _) => Tools
    case RecordCommand(_, _) => Commands
    case RecordMediumCommand(_, _) => MediumCommands
    case Drop(kind, _) => kind
    case DropAll(kind) => kind
  }

  function NamesOf(e: Event): set<string> {
    match e
    case RecordTools(_, tools) => tools
    case RecordCommand(_, basename) => Basenames(basename)
    case RecordMediumCommand(_, basename) => Basenames(basename)
    case _ => {}
  }

  function Apply(g: Grants, e: Event): Grants {
    var m := g.Of(KindOf(e));
    g.With(KindOf(e),
      match e
      case Drop(_, session) => m - {session}
      case DropAll(_) => map[]
      case RecordTools(session, _) => Insert(m, session, NamesOf(e))
      case RecordCommand(session, _) => Insert(m, session, NamesOf(e))
      case RecordMediumCommand(session, _) => Insert(m, session, NamesOf(e)))
  }

  function Run(trace: seq<Event>): Grants {
    if trace == [] then EMPTY else Apply(Run(trace[..|trace| - 1]), trace[|trace| - 1])
  }

  // ---------------------------------------------------------------------------
  // The trace specification

  /** The event takes the session's grants of this kind away. */
  predicate Drops(e: Event, kind: Kind, session: string) {
    match e
    case Drop(k, s) => k == kind && s == session
    case DropAll(k) => k == kind
    case _ => false
  }

  /** The event asks for the name to be granted to the session: in the tool map for tools,
      in the map of its own for a command, trimmed, of either risk. */
  predicate Records(e: Event, kind: Kind, session: string, name: string) {
    Trim(session) != "" && match e
    case RecordTools(s, names) => kind == Tools && s == session && name in names
    case RecordCommand(s, basename) => kind == Commands && s == session && name != "" && name == Trim(basename)
    case RecordMediumCommand(s, basename) => kind == MediumCommands && s == session && name != "" && name == Trim(basename)
    case Drop(_, _) => false
    case DropAll(_) => false
  }

  /** The same by the step the program takes. */
  lemma RecordsIff(e: Event, kind: Kind, session: string, name: string)
    ensures Records(e, kind, session, name) <==>
      IsRecord(e) && KindOf(e) == kind && e.session == session && name in NamesOf(e) && Trim(session) != ""
  {}

  predicate Undropped(trace: seq<Event>, i: nat, kind: Kind, session: string) {
    forall j :: i < j < |trace| ==> !Drops(trace[j], kind, session)
  }

  /** There is room for the session: it holds a grant already, or too few sessions do. */
  predicate Room(session: string, holders: set<string>) {
    session in holders || |holders| < 1000
  }

  /** The sessions that hold a grant of this kind after the trace: one was recorded when
      there was room for it, and not dropped since. */
  ghost function Holders(trace: seq<Event>, kind: Kind): set<string>
    decreases |trace|
  {
    set j: nat | j < |trace| && IsRecord(trace[j]) && (exists name :: Records(trace[j], kind, trace[j].session, name))
      && Room(trace[j].session, Holders(trace[..j], kind)) && Undropped(trace, j, kind, trace[j].session) :: trace[j].session
  }

  /** The event at `i` records the name for the session, and was not turned away. */
  ghost predicate Granted(trace: seq<Event>, i: nat, kind: Kind, session: string, name: string)
    requires i < |trace|
  {
    Records(trace[i], kind, session, name) && Room(session, Holders(trace[..i], kind))
  }

  /** Granted at `i` and not dropped since. */
  ghost predicate Stands(trace: seq<Event>, i: nat, kind: Kind, session: string, name: string)
    requires i < |trace|
  {
    Granted(trace, i, kind, session, name) && Undropped(trace, i, kind, session)
  }

  ghost predicate SomeStands(trace: seq<Event>, kind: Kind, session: string, name: string) {
    exists i :: 0 <= i < |trace| && Stands(trace, i, kind, session, name)
  }

  /** A session holds a grant exactly when some name stands for it. */
  lemma HolderIff(trace: seq<Event>, kind: Kind, session: string)
    ensures session in Holders(trace, kind) <==> exists name :: SomeStands(trace, kind, session, name)
  {
    if session in Holders(trace, kind) {
      var j: nat :| j < |trace| && IsRecord(trace[j]) && trace[j].session == session
        && (exists name :: Records(trace[j], kind, session, name))
        && Room(session, Holders(trace[..j], kind)) && Undropped(trace, j, kind, session);
      var name :| Records(trace[j], kind, session, name);
      assert Stands(trace, j, kind, session, name);
      assert SomeStands(trace, kind, session, name);
    }
    if name :| SomeStands(trace, kind, session, name) {
      var i :| 0 <= i < |trace| && Stands(trace, i, kind, session, name);
      assert trace[i].session == session && Records(trace[i], kind, session, name);
    }
  }

  lemma GrantedBefore(trace: seq<Event>, i: nat, kind: Kind, session: string, name: string)
    requires i < |trace| - 1
    ensures Granted(trace, i, kind, session, name) <==> Granted(trace[..|trace| - 1], i, kind, session, name)
  {
    assert trace[..|trace| - 1][..i] == trace[..i];
  }

  /** The sessions of a map are exactly those that the trace says hold a grant. */
  lemma {:induction false} KeysAreHolders(trace: seq<Event>, kind: Kind)
    ensures Run(trace).Of(kind).Keys == Holders(trace, kind)
    decreases |trace|, 1
  {
    var m := Run(trace).Of(kind);
    RunBounded(trace, kind);
    forall session
      ensures session in m <==> session in Holders(trace, kind)
    {
      forall name { GrantsAreTheTrace(trace, kind, session, name); }
      HolderIff(trace, kind, session);
      if session in m {
        var name :| name in m[session];
        assert name in Lookup(m, session);
      }
    }
  }

  /** A getter returns exactly the names recorded for that session in that one map since
      it was last dropped, less those turned away because the session was new and the map
      full. What is recorded, dropped and full is read off the trace alone. */
  lemma {:induction false} GrantsAreTheTrace(trace: seq<Event>, kind: Kind, session: string, name: string)
    ensures name in Lookup(Run(trace).Of(kind), session) <==> SomeStands(trace, kind, session, name)
    decreases |trace|, 0
  {
    if trace != [] {
      var n := |trace| - 1;
      var g := Run(trace[..n]);
      GrantsAreTheTrace(trace[..n], kind, session, name);
      KeysAreHolders(trace[..n], kind);
      assert |g.Of(kind)| == |g.Of(kind).Keys|;
      StandsStep(trace, n, kind, session, name);
      RecordsIff(trace[n], kind, session, name);
      LookupStep(g, trace[n], kind, session, name);
    }
  }

  /** The three getters, each on its own map. */
  lemma GettersAreTheTrace(trace: seq<Event>, session: string, name: string)
    ensures name in Lookup(Run(trace).tools, session) <==> SomeStands(trace, Tools, session, name)
    ensures name in Lookup(Run(trace).commands, session) <==> SomeStands(trace, Commands, session, name)
    ensures name in Lookup(Run(trace).mediumCommands, session) <==> SomeStands(trace, MediumCommands, session, name)
  {
    GrantsAreTheTrace(trace, Tools, session, name);
    GrantsAreTheTrace(trace, Commands, session, name);
    GrantsAreTheTrace(trace, MediumCommands, session, name);
  }

  /** What a session has in a map after more names are recorded for it: nothing more when it
      is blank, or new to a full map. */
  function Added(m: GrantMap, session: string, names: set<string>): set<string> {
    if Trim(session) == "" then {}
    else if session in m then m[session] + names
    else if |m| < 1000 then names
    else {}
  }

  /** Each record goes to its own map, and leaves the other two as they were. */
  lemma RecordsByMap(g: Grants, session: string, tools: set<string>, basename: string)
    ensures var r := Apply(g, RecordTools(session, tools));
      Lookup(r.tools, session) == Added(g.tools, session, tools) && r.commands == g.commands && r.mediumCommands == g.mediumCommands
    ensures var r := Apply(g, RecordCommand(session, basename));
      var names := if Trim(basename) == "" then {} else {Trim(basename)};
      Lookup(r.commands, session) == Added(g.commands, session, names) && r.tools == g.tools && r.mediumCommands == g.mediumCommands
    ensures var r := Apply(g, RecordMediumCommand(session, basename));
      var names := if Trim(basename) == "" then {} else {Trim(basename)};
      Lookup(r.mediumCommands, session) == Added(g.mediumCommands, session, names) && r.tools == g.tools && r.commands == g.commands
  {
    var names := if Trim(basename) == "" then {} else {Trim(basename)};
    InsertAdds(g.tools, session, tools);
    InsertAdds(g.commands, session, names);
    InsertAdds(g.mediumCommands, session, names);
  }

  lemma InsertAdds(m: GrantMap, session: string, names: set<string>)
    ensures Lookup(Insert(m, session, names), session) == Added(m, session, names)
  {
    hide Trim;
    if session in m { assert m[session] + {} == m[session]; }
  }

  lemma InsertLookup(m: GrantMap, to: string, names: set<string>, session: string, name: string)
    ensures name in Lookup(Insert(m, to, names), session) <==>
      || (Trim(session) != "" && to == session && name in names && (session in m || |m| < MAX_GRANT_SESSIONS))
      || name in Lookup(m, session)
  {}

  lemma RemoveLookup(m: GrantMap, from: string, session: string)
    ensures Lookup(m - {from}, session) == if from == session then {} else Lookup(m, session)
  {}

  lemma NotForBlank(m: GrantMap, session: string, name: string)
    ensures name in Lookup(m, session) ==> Trim(session) != ""
  {}

  lemma NothingIn(session: string)
    ensures Lookup(map[], session) == {}
  {}

  lemma WithOf(g: Grants, kind: Kind, m: GrantMap, other: Kind)
    ensures g.With(kind, m).Of(other) == if other == kind then m else g.Of(other)
  {}

  /** One event's effect on one name of one session. */
  predicate Kept(g: Grants, e: Event, kind: Kind, session: string, name: string) {
    var before := g.Of(kind);
    && Trim(session) != "" && !Drops(e, kind, session)
    && ((IsRecord(e) && KindOf(e) == kind && e.session == session && name in NamesOf(e) && (session in before || |before| < MAX_GRANT_SESSIONS))
        || name in Lookup(before, session))
  }

  lemma LookupStep(g: Grants, e: Event, kind: Kind, session: string, name: string)
    ensures name in Lookup(Apply(g, e).Of(kind), session) <==> Kept(g, e, kind, session, name)
  {
    hide Insert, Lookup;
    NothingIn(session);
    NotForBlank(g.Of(kind), session, name);
    var k := KindOf(e);
    var m := g.Of(k);
    match e
    case Drop(_, from) =>
      WithOf(g, k, m - {from}, kind);
      RemoveLookup(m, from, session);
    case DropAll(_) =>
      WithOf(g, k, map[], kind);
    case RecordTools(to, _) =>
      WithOf(g, k, Insert(m, to, NamesOf(e)), kind);
      InsertLookup(m, to, NamesOf(e), session, name);
    case RecordCommand(to, _) =>
      WithOf(g, k, Insert(m, to, NamesOf(e)), kind);
      InsertLookup(m, to, NamesOf(e), session, name);
    case RecordMediumCommand(to, _) =>
      WithOf(g, k, Insert(m, to, NamesOf(e)), kind);
      InsertLookup(m, to, NamesOf(e), session, name);
  }

  lemma StandsBefore(trace: seq<Event>, i: nat, kind: Kind, session: string, name: string)
    requires i < |trace| - 1
    ensures Stands(trace, i, kind, session, name) <==>
      Stands(trace[..|trace| - 1], i, kind, session, name) && !Drops(trace[|trace| - 1], kind, session)
  {
    GrantedBefore(trace, i, kind, session, name);
    UndroppedBefore(trace, i, kind, session);
  }

  lemma UndroppedBefore(trace: seq<Event>, i: nat, kind: Kind, session: string)
    requires i < |trace| - 1
    ensures Undropped(trace, i, kind, session) <==>
      Undropped(trace[..|trace| - 1], i, kind, session) && !Drops(trace[|trace| - 1], kind, session)
  {
    var n := |trace| - 1;
    assert forall j :: i < j < n ==> trace[..n][j] == trace[j];
  }

  lemma StandsStep(trace: seq<Event>, n: nat, kind: Kind, session: string, name: string)
    requires n + 1 == |trace|
    ensures SomeStands(trace, kind, session, name) <==>
      && !Drops(trace[n], kind, session)
      && (Granted(trace, n, kind, session, name) || SomeStands(trace[..n], kind, session, name))
  {
    var before := trace[..n];
    if SomeStands(trace, kind, session, name) {
      var i :| 0 <= i < |trace| && Stands(trace, i, kind, session, name);
      if i < n { StandsBefore(trace, i, kind, session, name); }
    }
    if !Drops(trace[n], kind, session) && SomeStands(before, kind, session, name) {
      var i :| 0 <= i < n && Stands(before, i, kind, session, name);
      StandsBefore(trace, i, kind, session, name);
    }
    if !Drops(trace[n], kind, session) && Granted(trace, n, kind, session, name) {
      assert Stands(trace, n, kind, session, name);
    }
  }

  // ---------------------------------------------------------------------------
  // What follows for every trace

  /** Each map holds at most 1000 sessions, none of them blank and none without a grant. */
  predicate Bounded(m: GrantMap) {
    |m| <= 1000 && forall s :: s in m ==> Trim(s) != "" && m[s] != {}
  }

  lemma InsertBounded(m: GrantMap, session: string, names: set<string>)
    requires Bounded(m)
    ensures Bounded(Insert(m, session, names))
  {
    if Insert(m, session, names) != m {
      var known := if session in m then m[session] else {};
      var x :| x in names;
      assert x in known + names;
      UpdateBounded(m, session, known + names);
    }
  }

  lemma UpdateBounded(m: GrantMap, session: string, names: set<string>)
    requires Bounded(m) && Trim(session) != "" && names != {} && (session in m || |m| < MAX_GRANT_SESSIONS)
    ensures Bounded(m[session := names])
  {
    hide Trim;
    var r := m[session := names];
    assert r.Keys == m.Keys + {session};
    assert session in m ==> r.Keys == m.Keys;
  }

  lemma DropBounded(m: GrantMap, session: string)
    requires Bounded(m)
    ensures Bounded(m - {session})
  {
    var r := m - {session};
    assert r.Keys == m.Keys - {session};
    SubsetSize(r.Keys, m.Keys);
  }

  lemma SubsetSize(a: set<string>, b: set<string>)
    requires a <= b
    ensures |a| <= |b|
  {
    assert b == a + (b - a);
  }

  lemma {:induction false} RunBounded(trace: seq<Event>, kind: Kind)
    ensures Bounded(Run(trace).Of(kind))
  {
    if trace != [] {
      var n := |trace| - 1;
      var e := trace[n];
      RunBounded(trace[..n], kind);
      var g := Run(trace[..n]);
      if KindOf(e) == kind {
        match e
        case Drop(_, session) => DropBounded(g.Of(kind), session);
        case DropAll(_) =>
        case RecordTools(session, _) => InsertBounded(g.Of(kind), session, NamesOf(e));
        case RecordCommand(session, _) => InsertBounded(g.Of(kind), session, NamesOf(e));
        case RecordMediumCommand(session, _) => InsertBounded(g.Of(kind), session, NamesOf(e));
      }
    }
  }

  /** The event is one of the map of this kind. */
  predicate Concerns(e: Event, kind: Kind) {
    match e
    case RecordTools(_, _) => kind == Tools
    case RecordCommand(_, _) => kind == Commands
    case RecordMediumCommand(_, _) => kind == MediumCommands
    case Drop(k, _) => k == kind
    case DropAll(k) => k == kind
  }

  lemma ConcernsIff(e: Event, kind: Kind)
    ensures Concerns(e, kind) <==> KindOf(e) == kind
  {}

  /** The events of one kind. */
  function Only(trace: seq<Event>, kind: Kind): seq<Event> {
    if trace == [] then []
    else
      var n := |trace| - 1;
      Only(trace[..n], kind) + (if Concerns(trace[n], kind) then [trace[n]] else [])
  }

  /** The three maps never mix: each is what the events of its own kind alone would make
      of it, whatever happens to the other two in between. */
  lemma {:induction false} KindsNeverMix(trace: seq<Event>, kind: Kind)
    ensures Run(trace).Of(kind) == Run(Only(trace, kind)).Of(kind)
    decreases |trace|
  {
    if trace != [] {
      var n := |trace| - 1;
      var e, own := trace[n], Only(trace[..n], kind);
      KindsNeverMix(trace[..n], kind);
      ConcernsIff(e, kind);
      if KindOf(e) == kind {
        assert (own + [e])[..|own|] == own;
        OneKind(Run(trace[..n]), Run(own), e);
      } else {
        assert own + [] == own;
        OtherKind(Run(trace[..n]), e, kind);
      }
    }
  }

  lemma OneKind(g: Grants, h: Grants, e: Event)
    requires g.Of(KindOf(e)) == h.Of(KindOf(e))
    ensures Apply(g, e).Of(KindOf(e)) == Apply(h, e).Of(KindOf(e))
  {}

  lemma OtherKind(g: Grants, e: Event, kind: Kind)
    requires KindOf(e) != kind
    ensures Apply(g, e).Of(kind) == g.Of(kind)
  {}

  /** A clear of the session runs through `trace` from `begin` on: one drop of each kind,
      with any other events before, between and after. */
  predicate ClearRuns(trace: seq<Event>, begin: nat, at: map<Kind, nat>, session: string) {
    forall k: Kind :: k in at && begin <= at[k] < |trace| && Drops(trace[at[k]], k, session)
  }

  /** Although the clear takes its three locks one after the other, no grant recorded
      before it began survives its return: every grant seen afterwards was recorded later. */
  lemma ClearLeavesNoOlderGrant(trace: seq<Event>, begin: nat, at: map<Kind, nat>, session: string, kind: Kind, name: string)
    requires ClearRuns(trace, begin, at, session) && name in Lookup(Run(trace).Of(kind), session)
    ensures exists i :: begin <= i < |trace| && Stands(trace, i, kind, session, name)
  {
    GrantsAreTheTrace(trace, kind, session, name);
    var i :| 0 <= i < |trace| && Stands(trace, i, kind, session, name);
    assert kind in at && Drops(trace[at[kind]], kind, session);
  }

  /** The three steps of a clear. */
  function ClearSteps(session: string): seq<Event> {
    [Drop(Tools, session), Drop(Commands, session), Drop(MediumCommands, session)]
  }

  /** Three steps leave the session nothing of any kind and every other session what it had. */
  lemma ClearSparesOthers(trace: seq<Event>, session: string, kind: Kind, other: string)
    ensures Lookup(Run(trace + ClearSteps(session)).Of(kind), other) ==
      if other == session then {} else Lookup(Run(trace).Of(kind), other)
  {
    var g := Run(trace);
    var t1, t2, t3 := Drop(Tools, session), Drop(Commands, session), Drop(MediumCommands, session);
    RunThree(trace, t1, t2, t3);
    RemoveLookup(g.Of(kind), session, other);
  }

  lemma RunThree(trace: seq<Event>, a: Event, b: Event, c: Event)
    ensures Run(trace + [a, b, c]) == Apply(Apply(Apply(Run(trace), a), b), c)
  {
    RunOne(trace, a);
    RunOne(trace + [a], b);
    RunOne(trace + [a] + [b], c);
    assert trace + [a] + [b] + [c] == trace + [a, b, c];
  }

  lemma RunOne(trace: seq<Event>, e: Event)
    ensures Run(trace + [e]) == Apply(Run(trace), e)
  {
    assert (trace + [e])[..|trace|] == trace;
  }

  // ---------------------------------------------------------------------------
  // The store

  predicate Sorted(s: seq<string>) {
    forall i, j :: 0 <= i < j < |s| ==> Less(s[i], s[j])
  }

  /** Sorted and without repetitions, a list is determined by its elements. */
  lemma {:induction false} SortedIsUnique(a: seq<string>, b: seq<string>)
    requires Sorted(a) && Sorted(b) && forall x :: x in a <==> x in b
    ensures a == b
    decreases |a|
  {
    if a == [] {
      assert forall i :: 0 <= i < |b| ==> b[i] in b;
    } else {
      assert a[0] in b && b != [] && b[0] in a;
      LessTotal(a[0], b[0]);
      assert a[0] == b[0];
      assert a == [a[0]] + a[1..] && b == [b[0]] + b[1..];
      forall x
        ensures x in a[1..] <==> x in b[1..]
      {
        LessTotal(a[0], a[0]);
        assert a[0] !in a[1..] && b[0] !in b[1..];
        assert x in a <==> x == a[0] || x in a[1..];
        assert x in b <==> x == b[0] || x in b[1..];
      }
      SortedIsUnique(a[1..], b[1..]);
    }
  }

  /** The place of a new name in a sorted list. */
  method InsertSorted(s: seq<string>, x: string) returns (r: seq<string>)
    requires Sorted(s) && x !in s
    ensures Sorted(r) && forall y :: y in r <==> y in s || y == x
  {
    var i := 0;
    while i < |s| && Less(s[i], x)
      invariant i <= |s| && forall j :: 0 <= j < i ==> Less(s[j], x)
    {
      i := i + 1;
    }
    if i < |s| {
      LessTotal(s[i], x);
      forall j | i < j < |s| ensures Less(x, s[j]) { LessTransitive(x, s[i], s[j]); }
    }
    r := s[..i] + [x] + s[i..];
    SortedWith(s, i, x, r);
  }

  lemma SortedWith(s: seq<string>, i: nat, x: string, r: seq<string>)
    requires Sorted(s) && i <= |s| && r == s[..i] + [x] + s[i..]
    requires (forall j :: 0 <= j < i ==> Less(s[j], x)) && forall j :: i <= j < |s| ==> Less(x, s[j])
    ensures Sorted(r) && forall y :: y in r <==> y in s || y == x
  {
    WithMembers(s, i, x, r);
    OrderedWith(s, i, x, r);
  }

  lemma WithMembers(s: seq<string>, i: nat, x: string, r: seq<string>)
    requires i <= |s| && r == s[..i] + [x] + s[i..]
    ensures forall y :: y in r <==> y in s || y == x
  {
    assert s == s[..i] + s[i..];
    assert x in [x];
  }

  lemma OrderedWith(s: seq<string>, i: nat, x: string, r: seq<string>)
    requires Sorted(s) && i <= |s| && r == s[..i] + [x] + s[i..]
    requires (forall j :: 0 <= j < i ==> Less(s[j], x)) && forall j :: i <= j < |s| ==> Less(x, s[j])
    ensures Sorted(r)
  {
    hide Less;
    assert forall a :: 0 <= a < i ==> r[a] == s[a];
    assert r[i] == x;
    assert forall a :: i < a < |r| ==> r[a] == s[a - 1];
  }

  method SortNames(names: set<string>) returns (r: seq<string>)
    ensures Sorted(r) && forall x :: x in r <==> x in names
  {
    r := [];
    var rest := names;
    while rest != {}
      invariant rest <= names && Sorted(r) && forall x :: x in r <==> x in names && x !in rest
      decreases rest
    {
      var x :| x in rest;
      r := InsertSorted(r, x);
      rest := rest - {x};
    }
  }

  class Store {
    var tools: GrantMap
    var commands: GrantMap
    var mediumCommands: GrantMap

    function State(): Grants
      reads this
    {
      Grants(tools, commands, mediumCommands)
    }

    constructor ()
      ensures tools == map[] && commands == map[] && mediumCommands == map[]
    {
      tools, commands, mediumCommands := map[], map[], map[];
    }

    method GrantedTools(session: string) returns (names: set<string>)
      ensures names == Lookup(tools, session)
    {
      if Trim(session) == "" {
        return {};
      }
      names := if session in tools then tools[session] else {};
    }

    method GrantedCommands(session: string) returns (names: seq<string>)
      ensures Sorted(names) && forall x :: x in names <==> x in Lookup(commands, session)
    {
      if Trim(session) == "" {
        return [];
      }
      names := SortNames(if session in commands then commands[session] else {});
    }

    method GrantedMediumCommands(session: string) returns (names: seq<string>)
      ensures Sorted(names) && forall x :: x in names <==> x in Lookup(mediumCommands, session)
    {
      if Trim(session) == "" {
        return [];
      }
      names := SortNames(if session in mediumCommands then mediumCommands[session] else {});
    }

    method Record(session: string, names: set<string>)
      modifies this
      ensures State() == Apply(old(State()), RecordTools(session, names))
      ensures commands == old(commands) && mediumCommands == old(mediumCommands)
      ensures Lookup(tools, session) == Added(old(tools), session, names)
    {
      if Trim(session) == "" || names == {} {
        return;
      }
      if session !in tools && |tools| >= MAX_GRANT_SESSIONS {
        return;
      }
      var known := if session in tools then tools[session] else {};
      tools := tools[session := known + names];
    }

    method RecordCommandName(session: string, basename: string)
      modifies this
      ensures State() == Apply(old(State()), RecordCommand(session, basename))
      ensures tools == old(tools) && mediumCommands == old(mediumCommands)
      ensures Lookup(commands, session) == Added(old(commands), session, if Trim(basename) == "" then {} else {Trim(basename)})
    {
      var name := Trim(basename);
      if Trim(session) == "" || name == "" {
        return;
      }
      if session !in commands && |commands| >= MAX_GRANT_SESSIONS {
        return;
      }
      var known := if session in commands then commands[session] else {};
      commands := commands[session := known + {name}];
    }

    method RecordMediumCommandName(session: string, basename: string)
      modifies this
      ensures State() == Apply(old(State()), RecordMediumCommand(session, basename))
      ensures tools == old(tools) && commands == old(commands)
      ensures Lookup(mediumCommands, session) == Added(old(mediumCommands), session, if Trim(basename) == "" then {} else {Trim(basename)})
    {
      var name := Trim(basename);
      if Trim(session) == "" || name == "" {
        return;
      }
      if session !in mediumCommands && |mediumCommands| >= MAX_GRANT_SESSIONS {
        return;
      }
      var known := if session in mediumCommands then mediumCommands[session] else {};
      mediumCommands := mediumCommands[session := known + {name}];
    }

    method Clear(session: string)
      modifies this
      ensures State() == Apply(Apply(Apply(old(State()), Drop(Tools, session)), Drop(Commands, session)), Drop(MediumCommands, session))
      ensures tools == old(tools) - {session} && commands == old(commands) - {session} && mediumCommands == old(mediumCommands) - {session}
    {
      tools := tools - {session};
      commands := commands - {session};
      mediumCommands := mediumCommands - {session};
    }

    method ClearAll()
      modifies this
      ensures tools == map[] && commands == map[] && mediumCommands == map[]
    {
      tools := map[];
      commands := map[];
      mediumCommands := map[];
    }
  }
}
