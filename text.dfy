/** The two ways the parser cuts text apart: into two-character chunks of its
    characters, and into whitespace-separated columns (`str::split_whitespace`). */
module Text {

  /** Chunk `i` of `s`: the two characters from offset 2 * i, or the single
      character left there at the end of an odd-length string. */
  function ChunkOf(s: string, i: nat): string
    requires 2 * i < |s|
  {
    if 2 * i + 2 <= |s| then s[2 * i .. 2 * i + 2] else s[2 * i ..]
  }

  /** The string's characters cut into consecutive two-character chunks, the
      last one a single character when the length is odd. */
  function Chunks(s: string): (r: seq<string>)
    ensures |r| == (|s| + 1) / 2
  {
    seq((|s| + 1) / 2, i requires 0 <= i < (|s| + 1) / 2 => ChunkOf(s, i))
  }

  /** Chunk `i` is the piece of `s` that starts at offset 2 * i: two characters,
      or the one that is left at the end. */
  lemma ChunkAt(s: string, i: nat)
    requires i < |Chunks(s)|
    ensures 2 * i + 2 <= |s| ==> Chunks(s)[i] == s[2 * i .. 2 * i + 2]
    ensures 2 * i + 2 > |s| ==> Chunks(s)[i] == s[2 * i ..]
  {
  }

  /** Slicing `s[2..]` is slicing `s` two characters further on. */
  lemma SliceShift(s: string, lo: nat, hi: nat)
    requires 2 <= lo <= hi <= |s|
    ensures s[2..][lo - 2 .. hi - 2] == s[lo .. hi]
  {
  }

  /** A piece of `s[2..]` taken from offset 2 * i - 2 is the piece of `s`
      taken from offset 2 * i. */
  lemma PieceShift(s: string, i: nat, c: string)
    requires 0 < i && 2 * i < |s|
    requires 2 * i + 2 <= |s| ==> c == s[2..][2 * i - 2 .. 2 * i]
    requires 2 * i + 2 > |s| ==> c == s[2..][2 * i - 2 ..]
    ensures 2 * i + 2 <= |s| ==> c == s[2 * i .. 2 * i + 2]
    ensures 2 * i + 2 > |s| ==> c == s[2 * i ..]
  {
    if 2 * i + 2 <= |s| {
      SliceShift(s, 2 * i, 2 * i + 2);
    } else {
      SliceShift(s, 2 * i, |s|);
      assert s[2 * i .. |s|] == s[2 * i ..];
      assert s[2..][2 * i - 2 .. |s| - 2] == s[2..][2 * i - 2 ..];
    }
  }

  /** Past the first chunk, the chunks of `s` are those of `s[2..]`. */
  lemma ChunksShift(s: string, i: nat)
    requires |s| > 2 && 0 < i < |Chunks(s)|
    ensures Chunks(s)[i] == Chunks(s[2..])[i - 1]
  {
    ChunkAt(s, i);
    ChunkAt(s[2..], i - 1);
    PieceShift(s, i, Chunks(s[2..])[i - 1]);
  }

  /** The chunks are produced front to back: a string of at most two characters
      is one chunk (none if it is empty); a longer one gives its first two
      characters, then the chunks of the rest. */
  lemma ChunksCons(s: string)
    ensures |s| == 0 ==> Chunks(s) == []
    ensures 0 < |s| <= 2 ==> Chunks(s) == [s]
    ensures |s| > 2 ==> Chunks(s) == [s[..2]] + Chunks(s[2..])
  {
    if 0 < |s| <= 2 {
      ChunkAt(s, 0);
      assert s[0..] == s;
      if |s| == 2 {
        assert s[0 .. 2] == s;
      }
    } else if |s| > 2 {
      forall i | 0 < i < |Chunks(s)|
        ensures Chunks(s)[i] == Chunks(s[2..])[i - 1]
      {
        ChunksShift(s, i);
      }
      ChunkAt(s, 0);
    }
  }

  /** Every chunk has one or two characters, two unless it is the last one of
      an odd-length string. */
  lemma ChunkSizes(s: string, i: nat)
    requires i < |Chunks(s)|
    ensures 1 <= |Chunks(s)[i]| <= 2
    ensures |Chunks(s)[i]| == 2 <==> 2 * i + 1 < |s|
  {
    ChunkAt(s, i);
  }

  /** `char::is_whitespace`: the Unicode White_Space property. */
  predicate IsWhitespace(c: char) {
    || '\t' <= c <= '\r'
    || c == ' '
    || c == '\U{0085}'
    || c == '\U{00A0}'
    || c == '\U{1680}'
    || '\U{2000}' <= c <= '\U{200A}'
    || c == '\U{2028}'
    || c == '\U{2029}'
    || c == '\U{202F}'
    || c == '\U{205F}'
    || c == '\U{3000}'
  }

  /** A token `split_whitespace` can produce: non-empty, with no whitespace. */
  predicate IsToken(t: string) {
    |t| > 0 && NoWhitespace(t)
  }

  /** What is still to come of `split_whitespace` when `cur` is the token read so
      far and `s` the text not yet read. */
  function SplitFrom(s: string, cur: string): seq<string>
    decreases |s|
  {
    if s == [] then
      (if cur == [] then [] else [cur])
    else if IsWhitespace(s[0]) then
      (if cur == [] then [] else [cur]) + SplitFrom(s[1..], [])
    else
      SplitFrom(s[1..], cur + [s[0]])
  }

  /** `str::split_whitespace`: the maximal runs of non-whitespace, in order. */
  function SplitWhitespace(s: string): seq<string> {
    SplitFrom(s, [])
  }

  /** The tokens joined with one separator between neighbours. */
  function Join(sep: char, ts: seq<string>): string
    decreases |ts|
  {
    if ts == [] then [] else if |ts| == 1 then ts[0] else ts[0] + [sep] + Join(sep, ts[1..])
  }

  predicate NoWhitespace(t: string) {
    forall i | 0 <= i < |t| :: !IsWhitespace(t[i])
  }

  /** Every piece `split_whitespace` yields is a token. */
  lemma {:induction false} SplitFromTokens(s: string, cur: string)
    requires NoWhitespace(cur)
    ensures forall t | t in SplitFrom(s, cur) :: IsToken(t)
    decreases |s|
  {
    if s != [] {
      if IsWhitespace(s[0]) {
        SplitFromTokens(s[1..], []);
      } else {
        SplitFromTokens(s[1..], cur + [s[0]]);
      }
    }
  }

  /** A whitespace character ends the token being read, whatever follows. */
  lemma {:induction false} SplitFromAppend(a: string, sep: char, b: string, cur: string)
    requires IsWhitespace(sep)
    ensures SplitFrom(a + [sep] + b, cur) == SplitFrom(a, cur) + SplitFrom(b, [])
    decreases |a|
  {
    if a == [] {
      assert a + [sep] + b == [sep] + b;
      assert ([sep] + b)[1..] == b;
    } else {
      assert (a + [sep] + b)[0] == a[0];
      assert (a + [sep] + b)[1..] == a[1..] + [sep] + b;
      if IsWhitespace(a[0]) {
        SplitFromAppend(a[1..], sep, b, []);
      } else {
        SplitFromAppend(a[1..], sep, b, cur + [a[0]]);
      }
    }
  }

  /** Text with no whitespace is read as the single token it completes. */
  lemma {:induction false} SplitFromRun(t: string, cur: string)
    requires NoWhitespace(t) && |cur + t| > 0
    ensures SplitFrom(t, cur) == [cur + t]
    decreases |t|
  {
    if t == [] {
      assert cur + t == cur;
    } else {
      assert cur + t == (cur + [t[0]]) + t[1..];
      SplitFromRun(t[1..], cur + [t[0]]);
    }
  }

  /** Splitting two pieces of text joined by whitespace splits each of them. */
  lemma SplitWhitespaceAppend(a: string, sep: char, b: string)
    requires IsWhitespace(sep)
    ensures SplitWhitespace(a + [sep] + b) == SplitWhitespace(a) + SplitWhitespace(b)
  {
    SplitFromAppend(a, sep, b, []);
  }

  /** Text made only of whitespace, the empty line included, has no tokens. */
  lemma {:induction false} SplitAllWhitespace(s: string)
    requires forall i | 0 <= i < |s| :: IsWhitespace(s[i])
    ensures SplitWhitespace(s) == []
    decreases |s|
  {
    if s != [] {
      SplitAllWhitespace(s[1..]);
    }
  }

  /** `split_whitespace` undoes joining tokens with a whitespace separator. */
  lemma {:induction false} SplitJoin(sep: char, ts: seq<string>)
    requires IsWhitespace(sep)
    requires forall i | 0 <= i < |ts| :: IsToken(ts[i])
    ensures SplitWhitespace(Join(sep, ts)) == ts
    decreases |ts|
  {
    if |ts| == 1 {
      SplitFromRun(ts[0], []);
      assert [] + ts[0] == ts[0];
    } else if |ts| > 1 {
      SplitWhitespaceAppend(ts[0], sep, Join(sep, ts[1..]));
      SplitFromRun(ts[0], []);
      assert [] + ts[0] == ts[0];
      SplitJoin(sep, ts[1..]);
    }
  }
}
