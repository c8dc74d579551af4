/** Which texts hold no image reference: what putting texts together does to the markers
    of each. `src/multimodal.rs` and `src/agent/agent.rs` write notes and placeholders
    where an image was, and rely on them not reading as images again. */
module Clearing {
  import opened Text
  import opened Multimodal

  /** Every reference of the text passes the test. */
  predicate AllGood(s: string, good: string -> bool) {
    forall i :: 0 <= i < |References(Pieces(s))| ==> good(References(Pieces(s))[i])
  }

  /** Every marker of the text is closed. */
  predicate AllClosed(s: string)
    decreases |s|
  {
    match NextMarker(s)
    case None => Find(s, MARKER).None?
    case Some(m) => AllClosed(s[m.cut..])
  }

  predicate Fine(s: string, good: string -> bool) {
    AllClosed(s) && AllGood(s, good)
  }

  /** Nothing that holds an opening bracket passes. */
  ghost predicate NoBracket(good: string -> bool) {
    forall r :: good(r) ==> '[' !in r
  }

  /** The test that no reference passes: it asks for a text without references. */
  function Never(): string -> bool {
    r => false
  }

  lemma NeverGood(s: string)
    ensures AllGood(s, Never()) <==> CountRefs(s) == 0
    ensures NoBracket(Never())
  {
    if CountRefs(s) > 0 { assert !Never()(References(Pieces(s))[0]); }
  }

  lemma GoodStep(s: string, m: Span, rest: string, good: string -> bool)
    requires NextMarker(s) == Some(m) && rest == s[m.cut..]
    ensures AllGood(s, good) <==> (m.reference == "" || good(m.reference)) && AllGood(rest, good)
    ensures AllClosed(s) <==> AllClosed(rest)
  {
    hide Pieces, References;
    PiecesStep(s);
    if m.reference != "" { GoodCons(m.reference, References(Pieces(rest)), good); }
  }

  lemma GoodCons(r: string, later: seq<string>, good: string -> bool)
    ensures (forall i :: 0 <= i < |[r] + later| ==> good(([r] + later)[i])) <==>
      good(r) && forall i :: 0 <= i < |later| ==> good(later[i])
  {
    var all := [r] + later;
    assert forall i :: 0 <= i < |later| ==> later[i] == all[i + 1];
    assert all[0] == r;
  }

  lemma GoodNone(s: string, good: string -> bool)
    requires NextMarker(s).None?
    ensures AllGood(s, good)
  {
    PiecesStep(s);
  }

  /** No marker but closed blank ones: all closed, and no reference. */
  lemma {:induction false} QuietIff(s: string)
    ensures Quiet(s) <==> Fine(s, Never())
    decreases |s|
  {
    match NextMarker(s)
    case None =>
      GoodNone(s, Never());
    case Some(m) =>
      GoodStep(s, m, s[m.cut..], Never());
      QuietIff(s[m.cut..]);
  }

  /** Text on a line of its own that opens a bracket before it closes one. */
  predicate Opens(z: string) {
    z != "" && z[0] == '\n' && match IndexOf(z, ']') case None => false case Some(f) => '[' in z[..f]
  }

  lemma LineOpens(a: string, y: string, z: string)
    requires z == a + y && a != "" && a[0] == '\n' && '[' in a && ']' !in a && ']' in y
    ensures Opens(z)
  {
    IndexOfNone(a, ']');
    IndexOfNone(y, ']');
    IndexOfAppend(a, y, ']');
    InPrefix(a, y, z, |a| + IndexOf(y, ']').value);
  }

  lemma InPrefix(a: string, y: string, z: string, f: nat)
    requires z == a + y && '[' in a && |a| <= f <= |z|
    ensures '[' in z[..f]
  {
    var i :| 0 <= i < |a| && a[i] == '[';
    assert z[..f][i] == '[';
  }

  // ---------------------------------------------------------------------------
  // Text before which no marker is open

  lemma NoMarkerAcross(a: string, c: char, y: string, s: string, n: nat, j: nat)
    requires Find(a, MARKER).None? && c !in MARKER && s == a + [c] + y && n == |a| + 1
    ensures j < n ==> !OccursAt(s, MARKER, j)
    ensures n <= j ==> (OccursAt(s, MARKER, j) <==> OccursAt(y, MARKER, j - n))
  {
    assert s[n..] == y;
    if n <= j {
      OccursInSuffix(s, MARKER, n, j - n);
    } else if j + |MARKER| <= |a| {
      assert s[j..j + |MARKER|] == a[j..j + |MARKER|];
      assert !OccursAt(a, MARKER, j);
    } else if j + |MARKER| <= |s| {
      assert s[j..j + |MARKER|][|a| - j] == s[|a|] == c;
    }
  }

  lemma FindPast(a: string, c: char, y: string, s: string, n: nat)
    requires Find(a, MARKER).None? && c !in MARKER && s == a + [c] + y && n == |a| + 1
    ensures Find(s, MARKER) == match Find(y, MARKER) case None => None case Some(k) => Some(n + k)
  {
    forall j: nat
      ensures j < n ==> !OccursAt(s, MARKER, j)
      ensures n <= j ==> (OccursAt(s, MARKER, j) <==> OccursAt(y, MARKER, j - n))
    {
      NoMarkerAcross(a, c, y, s, n, j);
    }
    if Find(y, MARKER).Some? {
      var k := Find(y, MARKER).value;
      assert OccursAt(s, MARKER, n + k);
      FindIs(s, MARKER, n + k);
    }
  }

  /** No marker begins in a text without one, nor runs across a character that no marker
      prefix holds: only the text after that character matters. */
  lemma ReferencesPast(a: string, c: char, y: string)
    requires Find(a, MARKER).None? && c !in MARKER
    ensures References(Pieces(a + [c] + y)) == References(Pieces(y))
    ensures AllClosed(a + [c] + y) <==> AllClosed(y)
  {
    var s, n := a + [c] + y, |a| + 1;
    FindPast(a, c, y, s, n);
    match NextMarker(y)
    case None =>
      NoneShifted(y, s, n);
      PiecesStep(s);
      PiecesStep(y);
    case Some(m) =>
      var m' := Span(n + m.start, n + m.cut, m.reference);
      SomeShifted(y, s, n, m, m');
      SameStep(s, y, m', m);
  }

  lemma SameStep(s: string, y: string, m': Span, m: Span)
    requires NextMarker(s) == Some(m') && NextMarker(y) == Some(m) && m'.reference == m.reference
    requires s[m'.cut..] == y[m.cut..]
    ensures References(Pieces(s)) == References(Pieces(y)) && (AllClosed(s) <==> AllClosed(y))
  {
    PiecesStep(s);
    PiecesStep(y);
  }

  lemma CountPast(a: string, c: char, y: string)
    requires Find(a, MARKER).None? && c !in MARKER
    ensures CountRefs(a + [c] + y) == CountRefs(y)
  {
    ReferencesPast(a, c, y);
  }

  lemma NoneShifted(y: string, s: string, n: nat)
    requires n <= |s| && s[n..] == y && NextMarker(y).None?
    requires Find(s, MARKER) == match Find(y, MARKER) case None => None case Some(k) => Some(n + k)
    ensures NextMarker(s).None?
  {
    if Find(y, MARKER).Some? {
      var k := Find(y, MARKER).value;
      SuffixOfSuffix(s, y, n, k + |MARKER|, n + k + |MARKER|);
    }
  }

  lemma SuffixOfSuffix(s: string, y: string, n: nat, i: nat, j: nat)
    requires n <= |s| && s[n..] == y && j == n + i && i <= |y|
    ensures j <= |s| && s[j..] == y[i..]
  {}

  lemma SomeShifted(y: string, s: string, n: nat, m: Span, m': Span)
    requires n <= |s| && s[n..] == y && NextMarker(y) == Some(m)
    requires Find(y, MARKER).Some? && Find(s, MARKER) == Some(n + Find(y, MARKER).value)
    requires m' == Span(n + m.start, n + m.cut, m.reference)
    ensures NextMarker(s) == Some(m') && s[m'.cut..] == y[m.cut..]
  {
    var k := Find(y, MARKER).value;
    var u := y[k + |MARKER|..];
    SuffixOfSuffix(s, y, n, k + |MARKER|, n + k + |MARKER|);
    SuffixOfSuffix(s, y, n, m.cut, m'.cut);
    var e := CloseOf(u).value;
    ShiftedIs(s, n + k, u, e, m, m');
  }

  lemma ShiftedIs(s: string, start: nat, u: string, e: nat, m: Span, m': Span)
    requires Find(s, MARKER) == Some(start) && start + |MARKER| <= |s| && u == s[start + |MARKER|..]
    requires CloseOf(u) == Some(e) && m.reference == Trim(u[..e])
    requires m' == Span(start, start + |MARKER| + e + 1, m.reference)
    ensures NextMarker(s) == Some(m')
  {
    NextMarkerIs(s, start, u, e, m'.cut, u[..e]);
  }

  // ---------------------------------------------------------------------------
  // A text and what comes after it on a new line

  /** Without a `[` before it, the first `]` is the one the depth scan stops at. */
  lemma {:induction false} FlatClose(u: string, e: nat)
    requires IndexOf(u, ']') == Some(e) && '[' !in u[..e]
    ensures DepthScan(u, 0) == Some(e)
  {
    if u[0] != ']' {
      assert u[0] == u[..e][0];
      assert u[1..][..e - 1] == u[..e][1..];
      FlatClose(u[1..], e - 1);
    }
  }

  /** When the depth scan finds no close, falling back gives a reference with a bracket. */
  lemma FallbackOpens(u: string, e: nat)
    requires DepthScan(u, 0).None? && CloseOf(u) == Some(e)
    ensures '[' in u[..e]
  {
    IndexOfBefore(u, ']');
    if '[' !in u[..e] { FlatClose(u, e); }
  }

  /** A close found by depth does not move when text is appended. */
  lemma ClosedStays(w: string, k: nat, u: string, m: Span, z: string, s: string)
    requires Find(w, MARKER) == Some(k) && u == w[k + |MARKER|..] && DepthScan(u, 0).Some?
    requires NextMarker(w) == Some(m) && s == w + z
    ensures NextMarker(s) == Some(m) && s[m.cut..] == w[m.cut..] + z
  {
    hide NextMarker;
    var v, e := MarkerParts(w, m);
    FindInPrefix(w, z);
    DepthScanAppend(u, z, 0);
    AppendedCuts(w, z, s, k + |MARKER|, k, m.cut, u, e);
    NextMarkerIs(s, k, u + z, e, m.cut, u[..e]);
  }

  /** A bracket stays when the text around it is trimmed. */
  lemma TrimKeepsBracket(s: string)
    requires '[' in s
    ensures '[' in Trim(s) && Trim(s) != ""
  {
    var a := TrimStart(s);
    TrimStartSpec(s);
    TrimEndSpec(a);
    var b := TrimEnd(a);
    SplitAt(s, |s| - |a|);
    SplitAt(a, |b|);
  }

  lemma BadReference(s: string, m: Span, c: string, good: string -> bool)
    requires NextMarker(s) == Some(m) && m.reference == Trim(c) && '[' in c && NoBracket(good)
    ensures !AllGood(s, good)
  {
    TrimKeepsBracket(c);
    GoodStep(s, m, s[m.cut..], good);
  }

  /** A marker that depth does not close takes in what follows, with its bracket. */
  lemma OpenTakesIn(w: string, k: nat, u: string, z: string, good: string -> bool)
    requires Find(w, MARKER) == Some(k) && u == w[k + |MARKER|..] && DepthScan(u, 0).None?
    requires Opens(z) && NoBracket(good)
    ensures !AllGood(w + z, good)
  {
    var s, v := w + z, u + z;
    FindInPrefix(w, z);
    assert s[k + |MARKER|..] == v;
    IndexOfAppend(u, z, ']');
    var e := CloseOf(v).value;
    TakenInOpens(u, z, v, IndexOf(z, ']').value, e);
    var cut := k + |MARKER| + e + 1;
    NextMarkerIs(s, k, v, e, cut, v[..e]);
    BadReference(s, Span(k, cut, Trim(v[..e])), v[..e], good);
  }

  lemma OpenIsNotFine(w: string, k: nat, u: string, good: string -> bool)
    requires Find(w, MARKER) == Some(k) && u == w[k + |MARKER|..] && DepthScan(u, 0).None? && NoBracket(good)
    ensures !Fine(w, good)
  {
    if CloseOf(u).Some? {
      var m := NextMarker(w).value;
      FallbackOpens(u, CloseOf(u).value);
      BadReference(w, m, u[..CloseOf(u).value], good);
    }
  }

  lemma TakenInOpens(u: string, z: string, v: string, f: nat, e: nat)
    requires v == u + z && DepthScan(u, 0).None? && IndexOf(z, ']') == Some(f) && '[' in z[..f]
    requires CloseOf(v) == Some(e)
    ensures '[' in v[..e]
  {
    if DepthScan(v, 0).None? {
      FallbackOpens(v, e);
    } else {
      DepthScanNone(u, 0);
      DepthScanAppend(u, z, 0);
      CloseIsPast(z, f, e - |u|);
      var i :| 0 <= i < f && z[..f][i] == '[';
      assert v[..e][|u| + i] == z[i] == z[..f][i];
    }
  }

  lemma CloseIsPast(z: string, f: nat, e: nat)
    requires IndexOf(z, ']') == Some(f) && e < |z| && z[e] == ']'
    ensures f <= e
  {
    IndexOfBefore(z, ']');
    assert forall i {:trigger z[i]} :: 0 <= i < f ==> z[i] == z[..f][i];
  }

  /** Every reference passes in a text and what is put behind it on a new line, exactly
      when all markers of the first are closed and all references of both pass alone. */
  lemma {:induction false} GoodSplits(w: string, z: string, good: string -> bool)
    requires Opens(z) && NoBracket(good)
    ensures AllGood(w + z, good) <==> Fine(w, good) && AllGood(z, good)
    decreases |w|
  {
    if Find(w, MARKER).None? {
      HeadNewline(w, z);
      GoodNone(w, good);
    } else {
      var k := Find(w, MARKER).value;
      var u := w[k + |MARKER|..];
      if DepthScan(u, 0).Some? {
        var m := NextMarker(w).value;
        ClosedStays(w, k, u, m, z, w + z);
        GoodStep(w + z, m, w[m.cut..] + z, good);
        GoodStep(w, m, w[m.cut..], good);
        GoodSplits(w[m.cut..], z, good);
      } else {
        OpenTakesIn(w, k, u, z, good);
        OpenIsNotFine(w, k, u, good);
      }
    }
  }

  lemma HeadNewline(w: string, z: string)
    requires Find(w, MARKER).None? && z != "" && z[0] == '\n'
    ensures References(Pieces(w + z)) == References(Pieces(z))
  {
    hide Pieces, References, AllClosed;
    var y := z[1..];
    assert w + z == w + ['\n'] + y && z == "" + ['\n'] + y;
    EmptyIsQuiet();
    ReferencesPast(w, '\n', y);
    ReferencesPast("", '\n', y);
  }

  /** A text and one behind it on a new line hold no reference together, exactly when the
      first has only closed blank markers and the second has no reference. */
  lemma ClearSplits(w: string, z: string)
    requires Opens(z)
    ensures CountRefs(w + z) == 0 <==> Quiet(w) && CountRefs(z) == 0
  {
    NeverGood(w + z);
    NeverGood(z);
    QuietIff(w);
    GoodSplits(w, z, Never());
  }

  /** A text that ends with a bracket leaves nothing open. */
  lemma {:induction false} ClosedEnd(w: string)
    requires w == "" || w[|w| - 1] == ']'
    ensures AllClosed(w)
    decreases |w|
  {
    if Find(w, MARKER).Some? {
      var k := Find(w, MARKER).value;
      var u := w[k + |MARKER|..];
      assert w[k..k + |MARKER|][|MARKER| - 1] == w[k + |MARKER| - 1];
      assert u[|u| - 1] == ']';
      IndexOfNone(u, ']');
      var m := NextMarker(w).value;
      ClosedEnd(w[m.cut..]);
    }
  }

  /** Markers that are all closed and blank give no reference. */
  lemma {:induction false} QuietIsClear(s: string)
    requires Quiet(s)
    ensures CountRefs(s) == 0
    decreases |s|
  {
    match NextMarker(s)
    case None => CountNone(s);
    case Some(m) =>
      CountStep(s, m, s[m.cut..]);
      QuietIsClear(s[m.cut..]);
  }

  // ---------------------------------------------------------------------------
  // Trimming

  lemma {:induction false} CountAfterBlank(l: string, x: string)
    requires Blank(l)
    ensures CountRefs(l + x) == CountRefs(x)
  {
    if l == "" {
      assert l + x == x;
    } else {
      var rest := l[1..];
      CountAfterBlank(rest, x);
      assert l + x == "" + [l[0]] + (rest + x);
      assert Find("", MARKER).None?;
      CountPast("", l[0], rest + x);
    }
  }

  lemma FindBeforeBlank(x: string, r: string)
    requires Blank(r)
    ensures Find(x + r, MARKER) == Find(x, MARKER)
  {
    var s := x + r;
    if Find(x, MARKER).Some? {
      FindInPrefix(x, r);
    } else {
      forall j: nat
        ensures !OccursAt(s, MARKER, j)
      {
        if j + |MARKER| <= |x| {
          assert s[j..j + |MARKER|] == x[j..j + |MARKER|];
          assert !OccursAt(x, MARKER, j);
        } else if j + |MARKER| <= |s| {
          var i := j + |MARKER| - 1;
          assert s[j..j + |MARKER|][|MARKER| - 1] == s[i] == r[i - |x|];
        }
      }
    }
  }

  lemma CloseBeforeBlank(u: string, r: string)
    requires Blank(r)
    ensures CloseOf(u + r) == CloseOf(u)
  {
    DepthScanAppend(u, r, 0);
    DepthScanNone(u, 0);
    if DepthScan(u, 0).None? {
      BracketFreeDepth(r, DepthAfter(u, 0).value);
      DepthScanNone(r, DepthAfter(u, 0).value);
    }
    IndexOfAppend(u, r, ']');
    IndexOfNone(r, ']');
  }

  lemma SameBeforeBlank(x: string, r: string, s: string, k: nat, u: string, e: nat, m: Span)
    requires s == x + r && NextMarker(x) == Some(m) && Find(x, MARKER) == Some(k) && Find(s, MARKER) == Some(k)
    requires u == x[k + |MARKER|..] && CloseOf(u) == Some(e) && CloseOf(u + r) == Some(e)
    ensures NextMarker(s) == Some(m) && s[m.cut..] == x[m.cut..] + r
  {
    hide NextMarker, CloseOf;
    var v, f := MarkerParts(x, m);
    AppendedCuts(x, r, s, k + |MARKER|, k, m.cut, u, e);
    NextMarkerIs(s, k, u + r, e, m.cut, u[..e]);
  }

  lemma {:induction false} CountBeforeBlank(x: string, r: string)
    requires Blank(r)
    ensures CountRefs(x + r) == CountRefs(x)
    decreases |x|
  {
    var s := x + r;
    FindBeforeBlank(x, r);
    if Find(x, MARKER).None? {
      CountNone(x);
      CountNone(s);
    } else {
      var k := Find(x, MARKER).value;
      var u := x[k + |MARKER|..];
      assert s[k + |MARKER|..] == u + r;
      CloseBeforeBlank(u, r);
      match CloseOf(u)
      case None =>
        CountNone(x);
        CountNone(s);
      case Some(e) =>
        var m := NextMarker(x).value;
        SameBeforeBlank(x, r, s, k, u, e, m);
        CountStep(s, m, x[m.cut..] + r);
        CountStep(x, m, x[m.cut..]);
        CountBeforeBlank(x[m.cut..], r);
    }
  }

  /** Trimming changes no reference count. */
  lemma TrimKeepsCount(s: string)
    ensures CountRefs(Trim(s)) == CountRefs(s)
  {
    var a := TrimStart(s);
    var b := TrimEnd(a);
    TrimStartSpec(s);
    TrimEndSpec(a);
    var l, r := s[..|s| - |a|], a[|b|..];
    SplitAt(s, |s| - |a|);
    SplitAt(a, |b|);
    CountAfterBlank(l, a);
    CountBeforeBlank(b, r);
  }

  /** A message without references is copied whole, so its cleaned text has none either. */
  lemma NoReferencesStay(content: string)
    requires Parse(content).refs == []
    ensures Parse(content).cleaned == Trim(content) && CountRefs(Parse(content).cleaned) == 0
  {
    AllCopied(Pieces(content));
    PiecesCover(content);
    TrimKeepsCount(content);
  }

  lemma {:induction false} AllCopied(ps: seq<Piece>)
    requires References(ps) == []
    ensures CopiedText(ps) == AllText(ps)
  {
    if ps != [] { AllCopied(ps[1..]); }
  }
}
