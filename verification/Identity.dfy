/** Turning nested JSON into lists and text: `src/identity.rs`. */
module Identity {
  import opened Text

  /** A JSON value; a number is its printed form, an object its entries in order. */
  datatype Json =
    | Null
    | Bool(b: bool)
    | Number(text: string)
    | Str(s: string)
    | Array(entries: seq<Json>)
    | Object(fields: seq<Field>)

  datatype Field = Field(key: string, value: Json)

  function ScalarToString(v: Json): Option<string> {
    match v
    case Str(s) => if Trim(s) == "" then None else Some(Trim(s))
    case Number(text) => Some(text)
    case Bool(b) => Some(if b then "true" else "false")
    case _ => None
  }

  // ---------------------------------------------------------------------------
  // De-duplication

  function LowerChar(c: char): char {
    if 'A' <= c <= 'Z' then c - 'A' + 'a' else c
  }

  function Lower(s: string): string {
    if s == "" then "" else [LowerChar(s[0])] + Lower(s[1..])
  }

  /** `eq_ignore_ascii_case`. */
  predicate SameName(a: string, b: string) {
    Lower(a) == Lower(b)
  }

  predicate Known(list: seq<string>, name: string) {
    exists i :: 0 <= i < |list| && SameName(list[i], name)
  }

  /** One more value, unless it is blank or known. */
  function AddName(list: seq<string>, value: string): seq<string> {
    var t := Trim(value);
    if t == "" || Known(list, t) then list else list + [t]
  }

  function DedupeInto(list: seq<string>, values: seq<string>): seq<string>
    decreases |values|
  {
    if values == [] then list else DedupeInto(AddName(list, values[0]), values[1..])
  }

  /** `dedupe_non_empty`. */
  function Dedupe(values: seq<string>): seq<string> {
    DedupeInto([], values)
  }

  method DedupeNonEmpty(values: seq<string>) returns (deduped: seq<string>)
    ensures deduped == Dedupe(values)
  {
    deduped := [];
    var i := 0;
    ghost var rest := values;
    while i < |values|
      invariant i <= |values| && rest == values[i..]
      invariant DedupeInto(deduped, rest) == Dedupe(values)
    {
      var trimmed := Trim(values[i]);
      if trimmed != "" && !Known(deduped, trimmed) {
        deduped := deduped + [trimmed];
      }
      i, rest := i + 1, rest[1..];
    }
  }

  // ---------------------------------------------------------------------------
  // The program

  function Lookup(fields: seq<Field>, key: string): (r: Option<Json>)
    ensures r.Some? ==> exists i :: 0 <= i < |fields| && fields[i].value == r.value
  {
    if fields == [] then None
    else if fields[0].key == key then Some(fields[0].value)
    else
      var r := Lookup(fields[1..], key);
      assert r.Some? ==> forall i :: 0 <= i < |fields[1..]| ==> fields[1..][i] == fields[i + 1];
      r
  }

  function NameIn(fields: seq<Field>, key: string): Option<string> {
    match Lookup(fields, key) case None => None case Some(v) => ScalarToString(v)
  }

  /** `list_from_value`: de-duplicated at every level. */
  function ListFromValue(v: Json): seq<string>
    decreases v, 2
  {
    Dedupe(match v
      case Array(entries) => ListsOf(entries)
      case Object(fields) => ObjectNames(fields)
      case _ => (match ScalarToString(v) case Some(t) => [t] case None => []))
  }

  function ListsOf(entries: seq<Json>): seq<string>
    decreases entries, 0
  {
    if entries == [] then [] else ListFromValue(entries[0]) + ListsOf(entries[1..])
  }

  /** The name, else the title, else the summary of an object. */
  function ObjectNames(fields: seq<Field>): seq<string>
    decreases fields, 1
  {
    match NameIn(fields, "name")
    case Some(name) => [name]
    case None =>
      match NameIn(fields, "title")
      case Some(title) => [title]
      case None => (match SummarizeObject(fields) case Some(s) => [s] case None => [])
  }

  function SummarizeObject(fields: seq<Field>): Option<string>
    decreases fields, 0, 1
  {
    var parts := Parts("", fields);
    if parts == [] then None else Some(Join(parts, "; "))
  }

  function Spaced(key: string): string {
    if key == "" then "" else [if key[0] == '_' then ' ' else key[0]] + Spaced(key[1..])
  }

  function FullLabel(prefix: string, key: string): string {
    if prefix == "" then Spaced(key) else prefix + " " + Spaced(key)
  }

  /** `summarize_object_into_parts`. */
  function Parts(prefix: string, fields: seq<Field>): seq<string>
    decreases fields, 0, 0
  {
    if fields == [] then [] else PartsOf(prefix, fields[0]) + Parts(prefix, fields[1..])
  }

  function PartsOf(prefix: string, f: Field): seq<string>
    decreases f, 0, 0
  {
    if f.key != "" && f.key[0] == '@' then []
    else
      var full := FullLabel(prefix, f.key);
      match f.value
      case Object(inner) => Parts(full, inner)
      case Array(entries) =>
        var values := ListFromValue(f.value);
        if values == [] then [] else [full + ": " + Join(values, ", ")]
      case _ => (match ScalarToString(f.value) case Some(t) => [full + ": " + t] case None => [])
  }

  function ValueToText(v: Json): Option<string> {
    match v
    case Null => None
    case Array(_) => var values := ListFromValue(v); if values == [] then None else Some(Join(values, ", "))
    case Object(fields) => SummarizeObject(fields)
    case _ => ScalarToString(v)
  }

  /** `list_from_value`, extending a list entry by entry. */
  method ListOf(v: Json) returns (list: seq<string>)
    ensures list == ListFromValue(v)
    decreases v, 2
  {
    var values: seq<string> := [];
    if v.Array? {
      var i := 0;
      ghost var rest := v.entries;
      while i < |v.entries|
        invariant i <= |v.entries| && rest == v.entries[i..]
        invariant values + ListsOf(rest) == ListsOf(v.entries)
      {
        var inner := ListOf(v.entries[i]);
        Assoc(values, inner, ListsOf(rest[1..]));
        values := values + inner;
        i, rest := i + 1, rest[1..];
      }
      assert values + [] == values;
    } else if v.Object? {
      var name := NameIn(v.fields, "name");
      var title := NameIn(v.fields, "title");
      if name.Some? {
        values := [name.value];
      } else if title.Some? {
        values := [title.value];
      } else {
        var summary := ObjectSummary(v.fields);
        if summary.Some? {
          values := [summary.value];
        }
      }
    } else {
      var text := ScalarToString(v);
      if text.Some? {
        values := [text.value];
      }
    }
    list := DedupeNonEmpty(values);
  }

  /** `summarize_object`. */
  method ObjectSummary(fields: seq<Field>) returns (r: Option<string>)
    ensures r == SummarizeObject(fields)
    decreases fields, 1
  {
    var parts := IntoParts("", fields, []);
    assert [] + Parts("", fields) == Parts("", fields);
    r := if parts == [] then None else Some(Join(parts, "; "));
  }

  /** `summarize_object_into_parts`. */
  method IntoParts(prefix: string, fields: seq<Field>, parts: seq<string>) returns (r: seq<string>)
    ensures r == parts + Parts(prefix, fields)
    decreases fields, 0
  {
    r := parts;
    var i := 0;
    ghost var rest := fields;
    while i < |fields|
      invariant i <= |fields| && rest == fields[i..]
      invariant r + Parts(prefix, rest) == parts + Parts(prefix, fields)
    {
      var f := fields[i];
      ghost var before := r;
      if !(f.key != "" && f.key[0] == '@') {
        var full := FullLabel(prefix, f.key);
        if f.value.Object? {
          r := IntoParts(full, f.value.fields, r);
        } else if f.value.Array? {
          var values := ListOf(f.value);
          if values != [] {
            r := r + [full + ": " + Join(values, ", ")];
          }
        } else {
          var text := ScalarToString(f.value);
          if text.Some? {
            r := r + [full + ": " + text.value];
          }
        }
      }
      assert r == before + PartsOf(prefix, rest[0]);
      Assoc(before, PartsOf(prefix, rest[0]), Parts(prefix, rest[1..]));
      i, rest := i + 1, rest[1..];
    }
    assert r + [] == r;
  }

  // ---------------------------------------------------------------------------
  // What de-duplication gives

  /** Trimmed, non-blank, and pairwise different when ASCII case is ignored. */
  predicate Clean(list: seq<string>) {
    && (forall i :: 0 <= i < |list| ==> list[i] != "" && Trim(list[i]) == list[i])
    && (forall i, j :: 0 <= i < j < |list| ==> !SameName(list[i], list[j]))
  }

  lemma AddNameClean(list: seq<string>, value: string)
    requires Clean(list)
    ensures Clean(AddName(list, value)) && list <= AddName(list, value)
  {
    hide Trim, SameName;
    TrimTrims(value);
  }

  lemma {:induction false} DedupeClean(list: seq<string>, values: seq<string>)
    requires Clean(list)
    ensures Clean(DedupeInto(list, values)) && list <= DedupeInto(list, values)
    decreases |values|
  {
    if values != [] {
      AddNameClean(list, values[0]);
      DedupeClean(AddName(list, values[0]), values[1..]);
    }
  }

  lemma {:induction false} DedupeAppend(list: seq<string>, a: seq<string>, b: seq<string>)
    ensures DedupeInto(list, a + b) == DedupeInto(DedupeInto(list, a), b)
    decreases |a|
  {
    if a == [] {
      assert a + b == b;
    } else {
      assert (a + b)[1..] == a[1..] + b;
      DedupeAppend(AddName(list, a[0]), a[1..], b);
    }
  }

  lemma KnownGrows(list: seq<string>, bigger: seq<string>, name: string)
    requires list <= bigger && Known(list, name)
    ensures Known(bigger, name)
  {
    var i :| 0 <= i < |list| && SameName(list[i], name);
    assert bigger[i] == list[i];
  }

  /** A name of a clean list is known once the list has been taken in. */
  lemma {:induction false} TakenInIsKnown(list: seq<string>, d: seq<string>, name: string)
    requires Clean(list) && Clean(d) && Known(d, name)
    ensures Known(DedupeInto(list, d), name)
    decreases |d|
  {
    var first := AddName(list, d[0]);
    AddNameClean(list, d[0]);
    DedupeClean(first, d[1..]);
    if SameName(d[0], name) {
      FirstKnown(list, d[0], name);
      KnownGrows(first, DedupeInto(first, d[1..]), name);
    } else {
      var i :| 0 <= i < |d| && SameName(d[i], name);
      assert d[1..][i - 1] == d[i];
      CleanTail(d);
      TakenInIsKnown(first, d[1..], name);
    }
  }

  lemma FirstKnown(list: seq<string>, x: string, name: string)
    requires x != "" && Trim(x) == x && SameName(x, name)
    ensures Known(AddName(list, x), name)
  {
    if Known(list, x) {
      var i :| 0 <= i < |list| && SameName(list[i], x);
      assert SameName(list[i], name);
    } else {
      assert (list + [x])[|list|] == x;
    }
  }

  lemma CleanTail(d: seq<string>)
    requires Clean(d) && d != []
    ensures Clean(d[1..])
  {
    assert forall i :: 0 <= i < |d[1..]| ==> d[1..][i] == d[i + 1];
  }

  /** Taking in a list that was de-duplicated first is taking in the values themselves. */
  lemma {:induction false} DedupeTwice(list: seq<string>, d: seq<string>, values: seq<string>)
    requires Clean(list) && Clean(d)
    ensures DedupeInto(list, DedupeInto(d, values)) == DedupeInto(DedupeInto(list, d), values)
    decreases |values|
  {
    if values != [] {
      var a := values[0];
      AddNameClean(d, a);
      DedupeTwice(list, AddName(d, a), values[1..]);
      AddAfter(list, d, a);
    }
  }

  lemma AddAfter(list: seq<string>, d: seq<string>, a: string)
    requires Clean(list) && Clean(d)
    ensures DedupeInto(list, AddName(d, a)) == AddName(DedupeInto(list, d), a)
  {
    var t := Trim(a);
    TrimTrims(a);
    if t != "" {
      if Known(d, t) {
        TakenInIsKnown(list, d, t);
      } else {
        DedupeAppend(list, d, [t]);
        assert [t][1..] == [];
      }
    }
  }

  /** The leaves of a value, in order, before any de-duplication. */
  function Leaves(v: Json): seq<string>
    decreases v
  {
    match v
    case Array(entries) => LeavesOf(entries)
    case Object(fields) => ObjectNames(fields)
    case _ => (match ScalarToString(v) case Some(t) => [t] case None => [])
  }

  function LeavesOf(entries: seq<Json>): seq<string>
    decreases entries
  {
    if entries == [] then [] else Leaves(entries[0]) + LeavesOf(entries[1..])
  }

  /** De-duplicating at every inner level changes nothing: the list of any nested value is
      one de-duplication of its flattened leaves. */
  lemma {:induction false} ListIsOneDedupe(v: Json)
    ensures ListFromValue(v) == Dedupe(Leaves(v))
    decreases v, 1
  {
    if v.Array? {
      assert Clean([]);
      ListsDedupe(v.entries, []);
    }
  }

  lemma {:induction false} ListsDedupe(entries: seq<Json>, list: seq<string>)
    requires Clean(list)
    ensures DedupeInto(list, ListsOf(entries)) == DedupeInto(list, LeavesOf(entries))
    decreases entries, 0
  {
    if entries != [] {
      var e, rest := entries[0], entries[1..];
      ListIsOneDedupe(e);
      DedupeAppend(list, ListFromValue(e), ListsOf(rest));
      DedupeAppend(list, Leaves(e), LeavesOf(rest));
      assert Clean([]);
      DedupeTwice(list, [], Leaves(e));
      assert DedupeInto(list, []) == list;
      DedupeClean(list, Leaves(e));
      ListsDedupe(rest, DedupeInto(list, Leaves(e)));
    }
  }

  // ---------------------------------------------------------------------------
  // De-duplication by first occurrences

  predicate Repeats(values: seq<string>, n: nat)
    requires n < |values|
  {
    exists j :: 0 <= j < n && SameName(Trim(values[j]), Trim(values[n]))
  }

  /** The trimmed values that are not blank and repeat no earlier value, in order. */
  function FirstOccurrences(values: seq<string>): seq<string>
    decreases |values|
  {
    if values == [] then []
    else
      var n := |values| - 1;
      FirstOccurrences(values[..n]) + (if Trim(values[n]) == "" || Repeats(values, n) then [] else [Trim(values[n])])
  }

  lemma SameNameBlank(a: string, b: string)
    requires SameName(a, b)
    ensures a == "" <==> b == ""
  {}

  lemma {:induction false} KnownIff(values: seq<string>, name: string)
    requires name != ""
    ensures Known(Dedupe(values), name) <==> exists j :: 0 <= j < |values| && SameName(Trim(values[j]), name)
    decreases |values|
  {
    if values != [] {
      var n := |values| - 1;
      var before, x := values[..n], Trim(values[n]);
      KnownIff(before, name);
      DedupeLast(values, n);
      AddKnown(Dedupe(before), values[n], name);
      assert forall j :: 0 <= j < n ==> before[j] == values[j];
    }
  }

  lemma DedupeLast(values: seq<string>, n: nat)
    requires n + 1 == |values|
    ensures Dedupe(values) == AddName(Dedupe(values[..n]), values[n])
  {
    assert values == values[..n] + [values[n]];
    DedupeAppend([], values[..n], [values[n]]);
    assert [values[n]][1..] == [];
  }

  lemma AddKnown(list: seq<string>, value: string, name: string)
    requires name != ""
    ensures Known(AddName(list, value), name) <==> Known(list, name) || SameName(Trim(value), name)
  {
    var t := Trim(value);
    if Known(list, name) {
      KnownGrows(list, AddName(list, value), name);
    }
    if SameName(t, name) {
      SameNameBlank(t, name);
      TrimTrims(value);
      FirstKnown(list, t, name);
    }
  }

  /** The list is exactly the first occurrences, in order, and it is clean. */
  lemma {:induction false} DedupeKeepsFirst(values: seq<string>)
    ensures Dedupe(values) == FirstOccurrences(values) && Clean(Dedupe(values))
    decreases |values|
  {
    assert Clean([]);
    DedupeClean([], values);
    if values != [] {
      var n := |values| - 1;
      DedupeKeepsFirst(values[..n]);
      DedupeLast(values, n);
      AddsFirst(values, n, values[..n]);
    }
  }

  lemma AddsFirst(values: seq<string>, n: nat, before: seq<string>)
    requires n + 1 == |values| && before == values[..n]
    ensures AddName(Dedupe(before), values[n]) ==
      Dedupe(before) + (if Trim(values[n]) == "" || Repeats(values, n) then [] else [Trim(values[n])])
  {
    hide Trim, Dedupe, SameName;
    var t, list := Trim(values[n]), Dedupe(before);
    assert list + [] == list;
    if t != "" {
      KnownIff(before, t);
      assert forall j :: 0 <= j < n ==> before[j] == values[j];
    }
  }

  // ---------------------------------------------------------------------------
  // A value as text

  lemma NoNameLeft(values: seq<string>, i: nat)
    requires Dedupe(values) == [] && i < |values|
    ensures Trim(values[i]) == ""
  {
    var t := Trim(values[i]);
    if t != "" {
      KnownIff(values, t);
      assert SameName(Trim(values[i]), t);
    }
  }

  lemma NameWasThere(values: seq<string>, name: string) returns (j: nat)
    requires name != "" && Known(Dedupe(values), name)
    ensures j < |values| && Trim(values[j]) != ""
  {
    KnownIff(values, name);
    j :| 0 <= j < |values| && SameName(Trim(values[j]), name);
    SameNameBlank(Trim(values[j]), name);
  }

  predicate AllBlank(values: seq<string>) {
    forall i :: 0 <= i < |values| ==> Trim(values[i]) == ""
  }

  lemma DedupeEmptyIff(values: seq<string>)
    ensures Dedupe(values) == [] <==> AllBlank(values)
  {
    var list := Dedupe(values);
    DedupeKeepsFirst(values);
    if list == [] {
      forall i | 0 <= i < |values| ensures Trim(values[i]) == "" { NoNameLeft(values, i); }
    } else {
      assert SameName(list[0], list[0]);
      var j := NameWasThere(values, list[0]);
    }
  }

  lemma {:induction false} JoinIsTrimmed(parts: seq<string>, sep: string)
    requires parts != [] && forall i :: 0 <= i < |parts| ==> parts[i] != "" && Trimmed(parts[i])
    ensures Join(parts, sep) != "" && Trimmed(Join(parts, sep))
  {
    if |parts| > 1 {
      JoinIsTrimmed(parts[1..], sep);
      var a, b := parts[0], Join(parts[1..], sep);
      var r := a + sep + b;
      assert r[0] == a[0] && r[|r| - 1] == b[|b| - 1];
    }
  }

  /** An array reads as no text exactly when all its leaves are blank, and otherwise as
      text that is trimmed and not blank, however deep the leaves are. */
  lemma ArrayAsText(entries: seq<Json>)
    ensures ValueToText(Array(entries)).None? <==> AllBlank(LeavesOf(entries))
    ensures ValueToText(Array(entries)).Some? ==>
      var t := ValueToText(Array(entries)).value; t != "" && Trimmed(t)
  {
    var v := Array(entries);
    var list := ListFromValue(v);
    ListIsOneDedupe(v);
    DedupeEmptyIff(Leaves(v));
    DedupeKeepsFirst(Leaves(v));
    if list != [] {
      forall i | 0 <= i < |list| ensures list[i] != "" && Trimmed(list[i]) { TrimTrims(list[i]); }
      JoinIsTrimmed(list, ", ");
    }
  }

  // ---------------------------------------------------------------------------
  // Names, labels and scalars

  /** The same letters, but for ASCII case. */
  lemma {:induction false} SameNameIff(a: string, b: string)
    ensures SameName(a, b) <==> |a| == |b| && forall i :: 0 <= i < |a| ==>
      a[i] == b[i] || ('A' <= a[i] <= 'Z' && b[i] == a[i] - 'A' + 'a') || ('A' <= b[i] <= 'Z' && a[i] == b[i] - 'A' + 'a')
  {
    LowerAt(a);
    LowerAt(b);
    if |a| == |b| {
      assert SameName(a, b) <==> forall i :: 0 <= i < |a| ==> Lower(a)[i] == Lower(b)[i];
    }
  }

  lemma {:induction false} LowerAt(s: string)
    ensures |Lower(s)| == |s| && forall i :: 0 <= i < |s| ==> Lower(s)[i] == LowerChar(s[i])
  {
    if s != "" {
      LowerAt(s[1..]);
      assert forall i :: 1 <= i < |s| ==> s[i] == s[1..][i - 1];
    }
  }

  /** The value of the first field with the key, which has no other. */
  predicate Keyed(fields: seq<Field>, key: string, v: Json) {
    exists i :: 0 <= i < |fields| && fields[i] == Field(key, v) && forall j :: 0 <= j < i ==> fields[j].key != key
  }

  predicate Unkeyed(fields: seq<Field>, key: string) {
    forall i :: 0 <= i < |fields| ==> fields[i].key != key
  }

  lemma {:induction false} LookupIs(fields: seq<Field>, key: string)
    ensures match Lookup(fields, key)
      case Some(v) => Keyed(fields, key, v)
      case None => Unkeyed(fields, key)
  {
    if fields != [] && fields[0].key != key {
      var rest := fields[1..];
      LookupIs(rest, key);
      assert forall i :: 0 <= i < |rest| ==> rest[i] == fields[i + 1];
      if Lookup(rest, key).Some? {
        var v := Lookup(rest, key).value;
        var i :| 0 <= i < |rest| && rest[i] == Field(key, v) && forall j :: 0 <= j < i ==> rest[j].key != key;
        assert fields[i + 1] == Field(key, v);
        forall j | 0 <= j < i + 1
          ensures fields[j].key != key
        {
          if j > 0 { assert fields[j] == rest[j - 1]; }
        }
      }
    } else if fields != [] {
      assert fields[0] == Field(key, fields[0].value);
    }
  }

  /** A scalar as text; null, arrays and objects are none. */
  lemma ScalarIs(v: Json)
    ensures ScalarToString(v) == match v
      case Str(s) => (if Blank(s) then None else Some(Trim(s)))
      case Number(text) => Some(text)
      case Bool(true) => Some("true")
      case Bool(false) => Some("false")
      case Null => None
      case Array(_) => None
      case Object(_) => None
  {
    if v.Str? { TrimTrims(v.s); }
  }

  /** The field is there and its value is a scalar that is not blank. */
  predicate Named(fields: seq<Field>, key: string, text: string) {
    Lookup(fields, key).Some? && ScalarToString(Lookup(fields, key).value) == Some(text)
  }

  /** An object goes by its name; without one, by its title; without either, by the parts of
      its summary; and by nothing when it has none. */
  lemma ObjectGoesBy(fields: seq<Field>, text: string)
    ensures Named(fields, "name", text) ==> ListFromValue(Object(fields)) == Dedupe([text])
    ensures (forall n :: !Named(fields, "name", n)) && Named(fields, "title", text) ==> ListFromValue(Object(fields)) == Dedupe([text])
    ensures (forall n :: !Named(fields, "name", n) && !Named(fields, "title", n)) ==>
      ListFromValue(Object(fields)) == if Parts("", fields) == [] then [] else Dedupe([Join(Parts("", fields), "; ")])
  {
    assert Dedupe([]) == [];
    var name, title := NameIn(fields, "name"), NameIn(fields, "title");
    if name.Some? { assert Named(fields, "name", name.value); }
    if title.Some? { assert Named(fields, "title", title.value); }
    var parts := Parts("", fields);
    assert SummarizeObject(fields) == if parts == [] then None else Some(Join(parts, "; "));
    if name.None? && title.None? {
      assert ObjectNames(fields) == if parts == [] then [] else [Join(parts, "; ")];
    }
  }

  /** Underscores become spaces, and nothing else changes. */
  lemma {:induction false} SpacedIs(key: string)
    ensures |Spaced(key)| == |key| && forall i :: 0 <= i < |key| ==> Spaced(key)[i] == if key[i] == '_' then ' ' else key[i]
  {
    if key != "" {
      SpacedIs(key[1..]);
      assert forall i :: 1 <= i < |key| ==> key[i] == key[1..][i - 1];
    }
  }

  lemma {:induction false} PartsAppend(prefix: string, a: seq<Field>, b: seq<Field>)
    ensures Parts(prefix, a + b) == Parts(prefix, a) + Parts(prefix, b)
  {
    if a == [] {
      assert a + b == b;
      assert [] + Parts(prefix, b) == Parts(prefix, b);
    } else {
      assert (a + b)[1..] == a[1..] + b;
      PartsAppend(prefix, a[1..], b);
      Assoc(PartsOf(prefix, a[0]), Parts(prefix, a[1..]), Parts(prefix, b));
    }
  }

  /** A field on its own: nothing under a key that starts with `@`; an object's fields with
      the key added to their labels; an array's list or a scalar behind the label. */
  lemma PartsAlone(prefix: string, f: Field)
    ensures
      var full := (if prefix == "" then "" else prefix + " ") + Spaced(f.key);
      Parts(prefix, [f]) ==
      if "@" <= f.key then []
      else match f.value
        case Object(inner) => Parts(full, inner)
        case Array(_) => (if ListFromValue(f.value) == [] then [] else [full + ": " + Join(ListFromValue(f.value), ", ")])
        case _ => (match ScalarToString(f.value) case Some(t) => [full + ": " + t] case None => [])
  {
    assert [f][1..] == [];
    assert PartsOf(prefix, f) + [] == PartsOf(prefix, f);
    assert "" + Spaced(f.key) == Spaced(f.key);
    assert "@" <= f.key <==> f.key != "" && f.key[0] == '@';
  }

  /** A string below the keys of a path. */
  function Nest(path: seq<string>, s: string): Field
    requires path != []
  {
    Field(path[0], if |path| == 1 then Str(s) else Object([Nest(path[1..], s)]))
  }

  function Labels(path: seq<string>): seq<string> {
    if path == [] then [] else [Spaced(path[0])] + Labels(path[1..])
  }

  /** However deep a string is nested, its label is the keys on the way to it. */
  lemma {:induction false} NestedLabel(prefix: string, path: seq<string>, s: string)
    requires path != [] && !Blank(s) && forall i :: 0 <= i < |path| ==> path[i] != "" && !("@" <= path[i])
    ensures Parts(prefix, [Nest(path, s)]) ==
      [(if prefix == "" then "" else prefix + " ") + Join(Labels(path), " ") + ": " + Trim(s)]
    decreases |path|
  {
    var f := Nest(path, s);
    var start := if prefix == "" then "" else prefix + " ";
    var full := start + Spaced(path[0]);
    PartsAlone(prefix, f);
    ScalarIs(Str(s));
    if |path| > 1 {
      var rest := path[1..];
      assert forall i :: 0 <= i < |rest| ==> rest[i] == path[i + 1];
      SpacedIs(path[0]);
      NestedLabel(full, rest, s);
      var later := Join(Labels(rest), " ");
      assert Labels(path)[1..] == Labels(rest);
      assert Join(Labels(path), " ") == Spaced(path[0]) + " " + later;
      Assoc(start, Spaced(path[0]) + " ", later);
      Assoc(start, Spaced(path[0]), " ");
    }
  }

  /** A value as text: none for null, a scalar's text, an array's list and an object's parts. */
  lemma AsText(v: Json)
    ensures ValueToText(v) == match v
      case Array(_) => (if ListFromValue(v) == [] then None else Some(Join(ListFromValue(v), ", ")))
      case Object(fields) => (if Parts("", fields) == [] then None else Some(Join(Parts("", fields), "; ")))
      case _ => ScalarToString(v)
  {}
}
