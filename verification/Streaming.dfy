/** Sending a summary in chunks: `stream_summary_as_chunks` of `src/agent/compaction.rs`.
    The channel is the number of chunks its receiver still takes. */
module Streaming {
  import opened Text

  const CHUNK_BYTES: nat := 64

  /** Length of the first piece of `split_inclusive(char::is_whitespace)`. */
  function WordLength(s: string): (n: nat)
    requires s != ""
    ensures 1 <= n <= |s|
  {
    if IsWhitespace(s[0]) || |s| == 1 then 1 else 1 + WordLength(s[1..])
  }

  /** The pieces: each ends with a whitespace character, the last one perhaps not. */
  function Words(s: string): seq<string> {
    if s == "" then [] else [s[..WordLength(s)]] + Words(s[WordLength(s)..])
  }

  /** The chunks made of the words still to come, after `buf`. */
  function ChunksFrom(words: seq<string>, buf: string): seq<string> {
    if words == [] then (if buf == "" then [] else [buf])
    else
      var b := buf + words[0];
      if Utf8Len(b) >= CHUNK_BYTES then [b] + ChunksFrom(words[1..], "") else ChunksFrom(words[1..], b)
  }

  function Chunks(summary: string): seq<string> {
    ChunksFrom(Words(summary), "")
  }

  lemma {:induction false} WordsConcat(s: string)
    ensures Concat(Words(s)) == s
    ensures forall i :: 0 <= i < |Words(s)| ==> Words(s)[i] != ""
    ensures forall i :: 0 <= i < |Words(s)| - 1 ==> EndsAtSpace(Words(s)[i])
    decreases |s|
  {
    if s != "" {
      var n := WordLength(s);
      WordsConcat(s[n..]);
      SplitAt(s, n);
      if n < |s| { WordEnds(s); }
      assert Words(s)[1..] == Words(s[n..]);
      assert Words(s[n..]) == [] ==> s[n..] == "";
    }
  }

  predicate EndsAtSpace(s: string) {
    s != "" && IsWhitespace(s[|s| - 1])
  }

  lemma {:induction false} WordEnds(s: string)
    requires s != "" && WordLength(s) < |s|
    ensures EndsAtSpace(s[..WordLength(s)])
  {
    if !IsWhitespace(s[0]) {
      WordEnds(s[1..]);
      var n := WordLength(s);
      assert s[..n][n - 1] == s[1..][..n - 1][n - 2];
    }
  }

  /** All chunks but the last have at least 64 bytes and end between words. */
  predicate FullButLast(chunks: seq<string>) {
    && (forall i :: 0 <= i < |chunks| ==> chunks[i] != "")
    && (forall i :: 0 <= i < |chunks| - 1 ==> Full(chunks[i]))
  }

  predicate Full(chunk: string) {
    Utf8Len(chunk) >= 64 && EndsAtSpace(chunk)
  }

  predicate WordList(words: seq<string>) {
    && (forall i :: 0 <= i < |words| ==> words[i] != "")
    && (forall i :: 0 <= i < |words| - 1 ==> EndsAtSpace(words[i]))
  }

  lemma {:induction false} ChunksFromConcat(words: seq<string>, buf: string)
    ensures Concat(ChunksFrom(words, buf)) == buf + Concat(words)
    decreases |words|
  {
    if words == [] {
      assert buf + "" == buf;
    } else {
      var b, rest := buf + words[0], words[1..];
      Assoc(buf, words[0], Concat(rest));
      if Utf8Len(b) >= CHUNK_BYTES {
        ChunksFromConcat(rest, "");
        assert "" + Concat(rest) == Concat(rest);
      } else {
        ChunksFromConcat(rest, b);
      }
    }
  }

  lemma FullCons(b: string, chunks: seq<string>)
    requires b != "" && FullButLast(chunks) && (chunks != [] ==> Full(b))
    ensures FullButLast([b] + chunks)
  {}

  lemma {:induction false} ChunksFromShape(words: seq<string>, buf: string)
    requires WordList(words)
    ensures FullButLast(ChunksFrom(words, buf))
    decreases |words|
  {
    if words != [] {
      var b, rest := buf + words[0], words[1..];
      assert b[|b| - 1] == words[0][|words[0]| - 1];
      if Utf8Len(b) >= CHUNK_BYTES {
        ChunksFromShape(rest, "");
        assert rest != [] ==> EndsAtSpace(words[0]);
        FullCons(b, ChunksFrom(rest, ""));
      } else {
        ChunksFromShape(rest, b);
      }
    }
  }

  /** The chunks are the summary, cut only between words, and only the last may be short. */
  lemma ChunksAreTheSummary(summary: string)
    ensures Concat(Chunks(summary)) == summary && FullButLast(Chunks(summary))
  {
    WordsConcat(summary);
    ChunksFromShape(Words(summary), "");
    ChunksFromConcat(Words(summary), "");
    assert "" + summary == summary;
  }

  /** `stream_summary_as_chunks`: the chunks the receiver got before it closed. */
  method StreamSummaryAsChunks(summary: string, hasSender: bool, accepts: nat) returns (sent: seq<string>)
    ensures !hasSender ==> sent == []
    ensures hasSender ==> sent == if accepts < |Chunks(summary)| then Chunks(summary)[..accepts] else Chunks(summary)
  {
    sent := [];
    if !hasSender {
      return;
    }
    var buf := "";
    var words := Words(summary);
    var i := 0;
    ghost var rest := words;
    while i < |words|
      invariant i <= |words| && rest == words[i..]
      invariant |sent| <= accepts && sent + ChunksFrom(rest, buf) == Chunks(summary)
    {
      ghost var before := sent;
      buf := buf + words[i];
      if Utf8Len(buf) >= CHUNK_BYTES {
        var piece := buf;
        Assoc(before, [piece], ChunksFrom(rest[1..], ""));
        buf := "";
        if |sent| == accepts {
          assert Chunks(summary)[..accepts] == sent;
          return;
        }
        sent := sent + [piece];
      }
      i, rest := i + 1, rest[1..];
    }
    assert sent + [] == sent;
    if buf != "" {
      if |sent| < accepts {
        sent := sent + [buf];
      } else {
        assert Chunks(summary)[..accepts] == sent;
      }
    }
  }

  lemma ConcatPrefix(parts: seq<string>, k: nat)
    requires k <= |parts|
    ensures Concat(parts[..k]) <= Concat(parts)
  {
    assert parts == parts[..k] + parts[k..];
    ConcatAppend(parts[..k], parts[k..]);
  }

  /** A receiver that closes early got a prefix of the summary. */
  lemma SentIsPrefix(summary: string, accepts: nat)
    ensures
      var all := Chunks(summary);
      var sent := if accepts < |all| then all[..accepts] else all;
      && Concat(sent) <= summary
      && (|all| <= accepts ==> Concat(sent) == summary)
  {
    ChunksAreTheSummary(summary);
    if accepts < |Chunks(summary)| { ConcatPrefix(Chunks(summary), accepts); }
  }

  /** A chunk is sent as soon as it has 64 bytes: none has them before its last word. */
  predicate Early(chunk: string) {
    forall k :: 0 < k < |chunk| && IsWhitespace(chunk[k - 1]) ==> Utf8Len(chunk[..k]) < 64
  }

  /** Whitespace only at the end. */
  predicate OneWord(w: string) {
    w != "" && forall i :: 0 <= i < |w| - 1 ==> !IsWhitespace(w[i])
  }

  lemma {:induction false} WordIsOne(s: string)
    requires s != ""
    ensures OneWord(s[..WordLength(s)])
  {
    if !IsWhitespace(s[0]) && |s| > 1 {
      WordIsOne(s[1..]);
      var w, v := s[..WordLength(s)], s[1..][..WordLength(s[1..])];
      assert w == [s[0]] + v;
      assert forall i :: 1 <= i < |w| ==> w[i] == v[i - 1];
    }
  }

  lemma {:induction false} WordsAreWords(s: string)
    ensures forall i :: 0 <= i < |Words(s)| ==> OneWord(Words(s)[i])
    decreases |s|
  {
    if s != "" {
      WordIsOne(s);
      WordsAreWords(s[WordLength(s)..]);
    }
  }

  lemma {:induction false} PrefixBytes(s: string, k: nat)
    requires k <= |s|
    ensures Utf8Len(s[..k]) <= Utf8Len(s)
  {
    if k > 0 {
      PrefixBytes(s[1..], k - 1);
      assert s[..k][0] == s[0] && s[..k][1..] == s[1..][..k - 1];
    }
  }

  lemma OneMoreWord(buf: string, w: string, b: string)
    requires Utf8Len(buf) < CHUNK_BYTES && OneWord(w) && b == buf + w
    ensures Early(b)
  {
    assert forall i {:trigger b[i]} :: |buf| <= i < |b| ==> b[i] == w[i - |buf|];
    forall k | 0 < k < |b| && IsWhitespace(b[k - 1])
      ensures Utf8Len(b[..k]) < CHUNK_BYTES
    {
      if k <= |buf| {
        assert b[..k] == buf[..k];
        PrefixBytes(buf, k);
      }
    }
  }

  lemma {:induction false} ChunksFromEarly(words: seq<string>, buf: string)
    requires (forall i :: 0 <= i < |words| ==> OneWord(words[i])) && Utf8Len(buf) < CHUNK_BYTES && Early(buf)
    ensures forall i :: 0 <= i < |ChunksFrom(words, buf)| ==> Early(ChunksFrom(words, buf)[i])
    decreases |words|
  {
    if words != [] {
      var b, rest := buf + words[0], words[1..];
      OneMoreWord(buf, words[0], b);
      if Utf8Len(b) >= CHUNK_BYTES {
        ChunksFromEarly(rest, "");
        var later := ChunksFrom(rest, "");
        assert forall i :: 1 <= i < |[b] + later| ==> ([b] + later)[i] == later[i - 1];
      } else {
        ChunksFromEarly(rest, b);
      }
    }
  }

  /** With the size of all but the last, this fixes every chunk. */
  lemma ChunksAreEarly(summary: string)
    ensures forall i :: 0 <= i < |Chunks(summary)| ==> Early(Chunks(summary)[i])
  {
    WordsAreWords(summary);
    ChunksFromEarly(Words(summary), "");
  }
}
