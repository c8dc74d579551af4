/** Strings as the program sees them: `str` trimming, searching and UTF-8 length.
    A string is a sequence of Unicode scalar values; every delimiter searched for
    is ASCII, so character positions and byte positions cut at the same places. */
module Text {
  datatype Option<+T> = None | Some(value: T)

  /** The Unicode `White_Space` property, as used by `str::trim`,
      `char::is_whitespace` and the regex class `\s`. */
  predicate IsWhitespace(c: char) {
    || '\U{0009}' <= c <= '\U{000D}'
    || c == ' ' || c == '\U{0085}' || c == '\U{00A0}' || c == '\U{1680}'
    || '\U{2000}' <= c <= '\U{200A}'
    || c == '\U{2028}' || c == '\U{2029}' || c == '\U{202F}' || c == '\U{205F}' || c == '\U{3000}'
  }

  lemma Assoc<T>(a: seq<T>, b: seq<T>, c: seq<T>)
    ensures a + b + c == a + (b + c)
  {}

  lemma SplitAt(s: string, k: nat)
    requires k <= |s|
    ensures s[..k] + s[k..] == s
  {}

  lemma HeadTail(s: string)
    requires s != ""
    ensures [s[0]] + s[1..] == s
  {}

  predicate Blank(s: string) {
    forall i :: 0 <= i < |s| ==> IsWhitespace(s[i])
  }

  function TrimStart(s: string): string {
    if s != "" && IsWhitespace(s[0]) then TrimStart(s[1..]) else s
  }

  function TrimEnd(s: string): string {
    if s != "" && IsWhitespace(s[|s| - 1]) then TrimEnd(s[..|s| - 1]) else s
  }

  lemma {:induction false} TrimStartSpec(s: string)
    ensures var r := TrimStart(s);
      && |r| <= |s| && s[|s| - |r|..] == r && Blank(s[..|s| - |r|])
      && (r == "" || !IsWhitespace(r[0]))
  {
    if s != "" && IsWhitespace(s[0]) {
      TrimStartSpec(s[1..]);
      var r := TrimStart(s[1..]);
      assert s[1..][|s| - 1 - |r|..] == s[|s| - |r|..];
      assert forall i :: 0 < i < |s| - |r| ==> s[i] == s[1..][..|s| - 1 - |r|][i - 1];
    }
  }

  lemma {:induction false} TrimEndSpec(s: string)
    ensures var r := TrimEnd(s);
      && |r| <= |s| && s[..|r|] == r && Blank(s[|r|..])
      && (r == "" || !IsWhitespace(r[|r| - 1]))
  {
    if s != "" && IsWhitespace(s[|s| - 1]) {
      TrimEndSpec(s[..|s| - 1]);
      var r := TrimEnd(s[..|s| - 1]);
      assert forall i :: |r| <= i < |s| - 1 ==> s[i] == s[..|s| - 1][|r|..][i - |r|];
    }
  }

  function Trim(s: string): string {
    TrimEnd(TrimStart(s))
  }

  predicate Trimmed(s: string) {
    s == "" || (!IsWhitespace(s[0]) && !IsWhitespace(s[|s| - 1]))
  }

  lemma TrimFixpoint(s: string)
    requires Trimmed(s)
    ensures Trim(s) == s
  {}

  /** Trimming leaves a trimmed string, which is empty exactly when all is whitespace. */
  lemma TrimTrims(s: string)
    ensures Trimmed(Trim(s)) && Trim(Trim(s)) == Trim(s)
    ensures Trim(s) == "" <==> Blank(s)
  {
    var a := TrimStart(s);
    var b := TrimEnd(a);
    TrimStartSpec(s);
    TrimEndSpec(a);
    if b != "" {
      assert b[0] == a[0];
      var k := |s| - |a|;
      assert s[k..][0] == s[k];
      assert !IsWhitespace(s[k]);
    } else {
      assert a == a[|b|..];
      assert a == "";
      assert s == s[..|s|];
    }
  }

  /** A trimmed core between whitespace is what trimming returns. */
  lemma TrimBetween(l: string, m: string, r: string)
    requires Blank(l) && Blank(r) && m != "" && Trimmed(m)
    ensures Trim(l + m + r) == m
  {
    TrimStartSkips(l, m + r);
    assert l + m + r == l + (m + r);
    TrimEndSkips(m, r);
  }

  lemma {:induction false} TrimStartSkips(l: string, x: string)
    requires Blank(l) && x != "" && !IsWhitespace(x[0])
    ensures TrimStart(l + x) == x
  {
    if l == "" {
      assert l + x == x;
    } else {
      assert (l + x)[1..] == l[1..] + x;
      TrimStartSkips(l[1..], x);
    }
  }

  lemma {:induction false} TrimEndSkips(x: string, r: string)
    requires Blank(r)
    ensures TrimEnd(x + r) == TrimEnd(x)
  {
    if r == "" {
      assert x + r == x;
    } else {
      assert (x + r)[..|x + r| - 1] == x + r[..|r| - 1];
      TrimEndSkips(x, r[..|r| - 1]);
    }
  }

  lemma {:induction false} TrimStartKeeps(a: string, b: string)
    requires !Blank(a)
    ensures TrimStart(a + b) == TrimStart(a) + b && TrimStart(a) != ""
  {
    if IsWhitespace(a[0]) {
      assert (a + b)[1..] == a[1..] + b;
      assert a == [a[0]] + a[1..];
      TrimStartKeeps(a[1..], b);
    }
  }

  /** Trimming only drops ends: every character of the result was there before. */
  lemma TrimChars(s: string)
    ensures forall c :: c in Trim(s) ==> c in s
  {
    var a := TrimStart(s);
    TrimStartSpec(s);
    TrimEndSpec(a);
    forall c | c in Trim(s)
      ensures c in s
    {
      var i :| 0 <= i < |Trim(s)| && Trim(s)[i] == c;
      assert a[i] == c && s[|s| - |a|..][i] == c;
    }
  }

  /** Trimming keeps a trimmed end and what is not blank before it. */
  lemma TrimKeepsEnd(a: string, b: string)
    requires !Blank(a) && b != "" && Trimmed(b)
    ensures |Trim(a + b)| > |b|
  {
    TrimStartKeeps(a, b);
  }

  /** `pat` occurs in `s` at position `i`. */
  predicate OccursAt(s: string, pat: string, i: nat) {
    i + |pat| <= |s| && s[i..i + |pat|] == pat
  }

  /** `s[from..].find(pat)`, as a position in `s`. */
  function FindFrom(s: string, pat: string, from: nat): (r: Option<nat>)
    requires from <= |s|
    ensures r.Some? ==> from <= r.value && OccursAt(s, pat, r.value)
    ensures r.Some? ==> forall j: nat :: from <= j < r.value ==> !OccursAt(s, pat, j)
    ensures r.None? ==> forall j: nat :: from <= j ==> !OccursAt(s, pat, j)
    decreases |s| - from
  {
    if OccursAt(s, pat, from) then Some(from)
    else if from == |s| then None
    else FindFrom(s, pat, from + 1)
  }

  /** `s.find(pat)`. */
  function Find(s: string, pat: string): (r: Option<nat>)
    ensures r.Some? ==> OccursAt(s, pat, r.value)
    ensures r.Some? ==> forall j: nat :: j < r.value ==> !OccursAt(s, pat, j)
    ensures r.None? ==> forall j: nat :: !OccursAt(s, pat, j)
  {
    FindFrom(s, pat, 0)
  }

  /** `s.find(c)` for a single character. */
  function IndexOf(s: string, c: char): (r: Option<nat>)
    ensures r.Some? ==> r.value < |s| && s[r.value] == c
  {
    if s == "" then None
    else if s[0] == c then Some(0)
    else match IndexOf(s[1..], c) case None => None case Some(k) => Some(k + 1)
  }

  lemma IndexOfNone(s: string, c: char)
    ensures IndexOf(s, c).None? <==> c !in s
  {}

  lemma {:induction false} IndexOfFirst(s: string, c: char, k: nat)
    requires k < |s| && s[k] == c && c !in s[..k]
    ensures IndexOf(s, c) == Some(k)
  {
    if k > 0 {
      assert s[0] == s[..k][0];
      assert s[1..][..k - 1] == s[..k][1..];
      IndexOfFirst(s[1..], c, k - 1);
    }
  }

  lemma {:induction false} IndexOfBefore(s: string, c: char)
    requires IndexOf(s, c).Some?
    ensures c !in s[..IndexOf(s, c).value]
  {
    if s[0] != c {
      IndexOfBefore(s[1..], c);
      var k := IndexOf(s, c).value;
      assert s[..k] == [s[0]] + s[1..][..k - 1];
    }
  }

  lemma {:induction false} IndexOfAppend(a: string, b: string, c: char)
    ensures IndexOf(a, c).Some? ==> IndexOf(a + b, c) == IndexOf(a, c)
    ensures IndexOf(a, c).None? ==> IndexOf(a + b, c) == match IndexOf(b, c) case None => None case Some(k) => Some(|a| + k)
  {
    if a == "" {
      assert a + b == b;
    } else {
      assert (a + b)[1..] == a[1..] + b;
      IndexOfAppend(a[1..], b, c);
    }
  }

  predicate Contains(s: string, pat: string) {
    Find(s, pat).Some?
  }

  /** The first occurrence is unique: any position with no earlier one is it. */
  lemma FindIs(s: string, pat: string, k: nat)
    requires OccursAt(s, pat, k)
    requires forall j: nat :: j < k ==> !OccursAt(s, pat, j)
    ensures Find(s, pat) == Some(k)
  {}

  /** An occurrence inside a suffix is an occurrence in the whole, shifted. */
  lemma OccursInSuffix(s: string, pat: string, k: nat, i: nat)
    requires k <= |s|
    ensures OccursAt(s[k..], pat, i) <==> OccursAt(s, pat, k + i)
  {
    if k + i + |pat| <= |s| {
      assert s[k..][i..i + |pat|] == s[k + i..k + i + |pat|];
    }
  }

  /** The number of bytes of the UTF-8 encoding (`str::len`). */
  function Utf8Len(s: string): (n: nat)
    ensures |s| <= n <= 4 * |s|
  {
    if s == "" then 0
    else
      var c := s[0] as int;
      (if c < 0x80 then 1 else if c < 0x800 then 2 else if c < 0x10000 then 3 else 4) + Utf8Len(s[1..])
  }

  /** UTF-8 takes one byte for ASCII, and two, three or four for the scalar values below
      U+0800, below U+10000, and above. */
  lemma {:induction false} Utf8LenLast(s: string, c: char)
    ensures Utf8Len(s + [c]) == Utf8Len(s) +
      (if c <= '\U{007F}' then 1 else if c <= '\U{07FF}' then 2 else if c <= '\U{FFFF}' then 3 else 4)
  {
    if s == "" {
      assert s + [c] == [c] && [c][1..] == "";
    } else {
      assert (s + [c])[1..] == s[1..] + [c];
      Utf8LenLast(s[1..], c);
    }
  }

  /** All strings glued together (`concat`). */
  function Concat(parts: seq<string>): string {
    if parts == [] then "" else parts[0] + Concat(parts[1..])
  }

  lemma ConcatAppend(a: seq<string>, b: seq<string>)
    ensures Concat(a + b) == Concat(a) + Concat(b)
  {
    if a == [] {
      assert a + b == b;
    } else {
      assert (a + b)[1..] == a[1..] + b;
    }
  }

  /** `parts.join(sep)`. */
  function Join(parts: seq<string>, sep: string): string {
    if parts == [] then ""
    else if |parts| == 1 then parts[0]
    else parts[0] + sep + Join(parts[1..], sep)
  }

  function Digit(d: nat): char
    requires d < 10
  {
    '0' + d as char
  }

  /** `n` in decimal. */
  function Decimal(n: nat): (s: string)
    ensures s != ""
  {
    if n < 10 then [Digit(n)] else Decimal(n / 10) + [Digit(n % 10)]
  }

  lemma DecimalDigits(n: nat)
    ensures forall i :: 0 <= i < |Decimal(n)| ==> '0' <= Decimal(n)[i] <= '9'
  {}

  /** Byte-wise string order, which for UTF-8 is the order of the scalar values. */
  predicate Less(a: string, b: string) {
    b != "" && (a == "" || a[0] < b[0] || (a[0] == b[0] && Less(a[1..], b[1..])))
  }

  lemma LessTotal(a: string, b: string)
    ensures a == b || Less(a, b) || Less(b, a)
    ensures !(Less(a, b) && Less(b, a)) && !Less(a, a)
  {
    if a != "" && b != "" {
      LessTotal(a[1..], b[1..]);
      if a[0] == b[0] && a[1..] == b[1..] {
        assert a == [a[0]] + a[1..];
        assert b == [b[0]] + b[1..];
      }
    }
  }

  lemma {:induction false} LessTransitive(a: string, b: string, c: string)
    requires Less(a, b) && Less(b, c)
    ensures Less(a, c)
  {
    if a != "" && a[0] == b[0] == c[0] {
      LessTransitive(a[1..], b[1..], c[1..]);
    }
  }

  /** A smaller character after a common prefix decides. */
  lemma {:induction false} LessAt(a: string, b: string, k: nat)
    requires k < |a| && k < |b| && a[..k] == b[..k] && a[k] < b[k]
    ensures Less(a, b)
  {
    if k > 0 {
      assert a[0] == a[..k][0] && b[0] == b[..k][0];
      assert a[1..][..k - 1] == a[..k][1..] && b[1..][..k - 1] == b[..k][1..];
      LessAt(a[1..], b[1..], k - 1);
    }
  }
}
