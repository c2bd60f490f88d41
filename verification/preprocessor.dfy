/** The chunker (`TextPreprocessor`): whitespace normalisation followed by
    fixed-size overlapping windows over the normalised text. */
module Preprocessor {
  import opened Common
  import opened TextRuns

  /** Python's whitespace characters: those `str.isspace` accepts, which are
      also the characters `\s` matches in a str pattern. */
  predicate IsSpace(c: char)
    ensures IsSpace(c) ==> !('a' <= c <= 'z' || 'A' <= c <= 'Z' || '0' <= c <= '9' || c == '_')
  {
    || ('\t' <= c <= '\r')
    || ('\U{1c}' <= c <= '\U{1f}')
    || c == ' ' || c == '\U{85}' || c == '\U{a0}' || c == '\U{1680}'
    || ('\U{2000}' <= c <= '\U{200a}')
    || c == '\U{2028}' || c == '\U{2029}' || c == '\U{202f}' || c == '\U{205f}' || c == '\U{3000}'
  }

  predicate NonSpace(c: char)
  {
    !IsSpace(c)
  }

  /** Every whitespace character is a plain space. */
  predicate OnlyPlainSpaces(s: string)
  {
    forall i :: 0 <= i < |s| && IsSpace(s[i]) ==> s[i] == ' '
  }

  /** No two whitespace characters are adjacent. */
  predicate NoDoubleSpace(s: string)
  {
    forall i :: 0 <= i < |s| - 1 ==> !IsSpace(s[i]) || !IsSpace(s[i + 1])
  }

  /** The string neither starts nor ends with whitespace. */
  predicate NoEdgeSpace(s: string)
  {
    s == [] || (!IsSpace(s[0]) && !IsSpace(s[|s| - 1]))
  }

  predicate IsClean(s: string)
  {
    OnlyPlainSpaces(s) && NoDoubleSpace(s) && NoEdgeSpace(s)
  }

  /** `re.sub(r'\s+', ' ', s)`: every maximal whitespace run becomes one
      space. */
  function Collapse(s: string): (r: string)
    ensures OnlyPlainSpaces(r) && NoDoubleSpace(r)
    ensures (r == []) == (s == [])
    ensures s != [] ==> (IsSpace(r[0]) <==> IsSpace(s[0]))
    ensures s != [] && !IsSpace(s[0]) ==> r[0] == s[0]
  {
    if s == [] then []
    else if IsSpace(s[0]) then
      if |s| > 1 && IsSpace(s[1]) then Collapse(s[1..]) else [' '] + Collapse(s[1..])
    else [s[0]] + Collapse(s[1..])
  }

  /** `s.replace('\n', ' ')`. */
  function ReplaceNewlines(s: string): (r: string)
    ensures |r| == |s|
    ensures forall i :: 0 <= i < |s| ==> r[i] == (if s[i] == '\n' then ' ' else s[i])
  {
    if s == [] then [] else [if s[0] == '\n' then ' ' else s[0]] + ReplaceNewlines(s[1..])
  }

  /** The left half of `str.strip()`. */
  function StripLeft(s: string): (r: string)
    ensures |r| <= |s| && r == s[|s| - |r|..]
    ensures r == [] || !IsSpace(r[0])
    ensures forall i :: 0 <= i < |s| - |r| ==> IsSpace(s[i])
  {
    if s != [] && IsSpace(s[0]) then StripLeft(s[1..]) else s
  }

  /** The right half of `str.strip()`. */
  function StripRight(s: string): (r: string)
    ensures |r| <= |s| && r == s[..|r|]
    ensures r == [] || !IsSpace(r[|r| - 1])
    ensures forall i :: |r| <= i < |s| ==> IsSpace(s[i])
  {
    if s != [] && IsSpace(s[|s| - 1]) then StripRight(s[..|s| - 1]) else s
  }

  /** Stripping both sides keeps a slice of the input and drops only
      whitespace around it. */
  lemma StripSlice(s: string)
    ensures var l := StripLeft(s);
            var r := StripRight(l);
            var k := |s| - |l|;
            && r <= s[k..]
            && (forall i :: 0 <= i < k ==> IsSpace(s[i]))
            && (forall i :: k + |r| <= i < |s| ==> IsSpace(s[i]))
  {
    var l := StripLeft(s);
    var r := StripRight(l);
    var k := |s| - |l|;
    assert r <= l;
    forall i | k + |r| <= i < |s| ensures IsSpace(s[i]) {
      assert s[i] == l[i - k];
    }
  }

  /** `str.strip()`: a slice of the input with no whitespace at either end,
      where everything dropped before or after it is whitespace. */
  function Strip(s: string): (r: string)
    ensures NoEdgeSpace(r)
    ensures var k := |s| - |StripLeft(s)|;
            && r <= s[k..]
            && (forall i :: 0 <= i < k ==> IsSpace(s[i]))
            && (forall i :: k + |r| <= i < |s| ==> IsSpace(s[i]))
  {
    StripSlice(s);
    StripRight(StripLeft(s))
  }


  /** `clean_text`: collapse whitespace runs, replace newlines, strip. The
      result has no leading or trailing whitespace, no two adjacent
      whitespace characters and no whitespace but plain spaces, and it keeps
      the words: its maximal non-whitespace runs are those of the input. */
  function CleanText(text: string): (r: string)
    ensures IsClean(r)
    ensures Runs(r, NonSpace) == Runs(text, NonSpace)
  {
    var c := Collapse(text);
    ReplaceNewlinesKeepsPlain(c);
    StripKeepsSpacing(c);
    RunsOfCollapse(text);
    RunsOfStrip(c);
    Strip(ReplaceNewlines(c))
  }

  /** `" ".join(words)`. */
  function Join(words: seq<string>): string
  {
    if words == [] then []
    else if |words| == 1 then words[0]
    else words[0] + " " + Join(words[1..])
  }

  // ---------------------------------------------------------------------
  // Properties of clean_text
  // ---------------------------------------------------------------------

  lemma ReplaceNewlinesKeepsPlain(s: string)
    requires OnlyPlainSpaces(s)
    ensures ReplaceNewlines(s) == s
  {
    if s != [] {
      assert OnlyPlainSpaces(s[1..]) by {
        forall i | 0 <= i < |s[1..]| && IsSpace(s[1..][i]) ensures s[1..][i] == ' ' {
          assert s[1..][i] == s[i + 1];
        }
      }
      ReplaceNewlinesKeepsPlain(s[1..]);
    }
  }

  lemma SliceKeepsSpacing(s: string, a: nat, b: nat)
    requires a <= b <= |s|
    requires OnlyPlainSpaces(s) && NoDoubleSpace(s)
    ensures OnlyPlainSpaces(s[a..b]) && NoDoubleSpace(s[a..b])
  {
    var t := s[a..b];
    forall i | 0 <= i < |t| - 1 ensures !IsSpace(t[i]) || !IsSpace(t[i + 1]) {
      assert t[i] == s[a + i] && t[i + 1] == s[a + i + 1];
    }
    forall i | 0 <= i < |t| && IsSpace(t[i]) ensures t[i] == ' ' {
      assert t[i] == s[a + i];
    }
  }

  lemma {:induction false} RunsOfCollapse(s: string)
    ensures Runs(Collapse(s), NonSpace) == Runs(s, NonSpace)
    decreases |s|
  {
    if s != [] {
      var rest := s[1..];
      assert s == [s[0]] + rest;
      RunsOfCollapse(rest);
      if IsSpace(s[0]) {
        if !(|s| > 1 && IsSpace(s[1])) {
          RunsSkip(' ', Collapse(rest), NonSpace);
        }
      } else {
        RunsCons(s[0], Collapse(rest), NonSpace);
        RunsCons(s[0], rest, NonSpace);
      }
    }
  }

  lemma {:induction false} RunsOfStripLeft(s: string)
    ensures Runs(StripLeft(s), NonSpace) == Runs(s, NonSpace)
    decreases |s|
  {
    if s != [] && IsSpace(s[0]) {
      RunsOfStripLeft(s[1..]);
    }
  }

  lemma {:induction false} RunsOfStripRight(s: string)
    ensures Runs(StripRight(s), NonSpace) == Runs(s, NonSpace)
    decreases |s|
  {
    if s != [] && IsSpace(s[|s| - 1]) {
      RunsOfStripRight(s[..|s| - 1]);
      assert s == s[..|s| - 1] + [s[|s| - 1]];
      RunsDropLast(s[..|s| - 1], s[|s| - 1], NonSpace);
    }
  }

  /** Stripping a string whose only whitespace is single plain spaces
      leaves a clean string. */
  lemma StripKeepsSpacing(s: string)
    requires OnlyPlainSpaces(s) && NoDoubleSpace(s)
    ensures IsClean(Strip(s))
  {
    var l := StripLeft(s);
    SliceKeepsSpacing(s, |s| - |l|, |s|);
    SliceKeepsSpacing(l, 0, |StripRight(l)|);
  }

  /** Stripping keeps the words. */
  lemma RunsOfStrip(s: string)
    ensures Runs(Strip(s), NonSpace) == Runs(s, NonSpace)
  {
    RunsOfStripLeft(s);
    RunsOfStripRight(StripLeft(s));
  }

  lemma JoinConsHead(c: char, ws: seq<string>)
    requires ws != []
    ensures Join([[c] + ws[0]] + ws[1..]) == [c] + Join(ws)
  {
    var vs := [[c] + ws[0]] + ws[1..];
    assert vs[1..] == ws[1..];
  }

  lemma CleanAfterWord(t: string)
    requires IsClean(t) && |t| > 1 && !IsSpace(t[1])
    ensures IsClean(t[1..])
  {
    SliceKeepsSpacing(t, 1, |t|);
  }

  lemma CleanAfterSpace(t: string)
    requires IsClean(t) && |t| > 1 && IsSpace(t[1])
    ensures |t| > 2 && t[1] == ' ' && !IsSpace(t[2]) && IsClean(t[2..])
  {
    SliceKeepsSpacing(t, 2, |t|);
  }

  /** A clean string is its words joined by single spaces. */
  lemma {:induction false} JoinOfClean(t: string)
    requires IsClean(t)
    ensures Join(Runs(t, NonSpace)) == t
    decreases |t|
  {
    if t != [] {
      var x := t[1..];
      assert t == [t[0]] + x;
      assert !IsSpace(t[0]);
      RunsCons(t[0], x, NonSpace);
      if x == [] {
      } else if !IsSpace(t[1]) {
        CleanAfterWord(t);
        JoinOfClean(x);
        JoinConsHead(t[0], Runs(x, NonSpace));
      } else {
        CleanAfterSpace(t);
        var y := t[2..];
        JoinOfClean(y);
        JoinSpaceHead(t[0], y);
      }
    }
  }

  lemma JoinSpaceHead(c: char, y: string)
    requires NonSpace(c) && y != [] && NonSpace(y[0]) && Join(Runs(y, NonSpace)) == y
    ensures Join(Runs([c] + ([' '] + y), NonSpace)) == [c] + ([' '] + y)
  {
    RunsCons(c, [' '] + y, NonSpace);
    RunsSkip(' ', y, NonSpace);
    var ws := Runs(y, NonSpace);
    assert ([[c]] + ws)[1..] == ws;
  }

  /** clean_text is the input's words joined by single spaces: every
      whitespace run between words becomes one space, and whitespace at the
      ends disappears. */
  lemma CleanTextIsJoinedWords(text: string)
    ensures CleanText(text) == Join(Runs(text, NonSpace))
  {
    JoinOfClean(CleanText(text));
  }

  /** Cleaning already-cleaned text changes nothing. */
  lemma CleanTextIdempotent(text: string)
    ensures CleanText(CleanText(text)) == CleanText(text)
  {
    CleanTextIsJoinedWords(text);
    CleanTextIsJoinedWords(CleanText(text));
  }

  // ---------------------------------------------------------------------
  // chunk_text
  // ---------------------------------------------------------------------

  /** `cleaned[start:start + chunkSize]`: for a start inside the text, the
      1 to `chunkSize` characters from it up to the end of the window or of
      the text. */
  function Window(cleaned: string, start: int, chunkSize: int): (w: string)
    ensures 0 <= start < |cleaned| && chunkSize >= 1 ==>
              && w == cleaned[start..Min(start + chunkSize, |cleaned|)]
              && 1 <= |w| <= chunkSize
  {
    PySlice(cleaned, start, start + chunkSize)
  }

  /** The windows whose starts are start, start + step, ... below the end
      of the cleaned text. */
  function ChunksFrom(cleaned: string, start: nat, step: int, chunkSize: int): (r: seq<string>)
    requires step > 0
    ensures (r == []) == (start >= |cleaned|)
    decreases |cleaned| - start
  {
    if start >= |cleaned| then []
    else [Window(cleaned, start, chunkSize)] + ChunksFrom(cleaned, start + step, step, chunkSize)
  }

  /** The chunks of an already-cleaned text. */
  function Chunks(cleaned: string, chunkSize: int, overlap: int): (r: seq<string>)
    requires chunkSize - overlap > 0
    ensures (r == []) == (cleaned == [])
  {
    ChunksFrom(cleaned, 0, chunkSize - overlap, chunkSize)
  }

  /** `chunk_text`. The source never checks that the window moves forward:
      with `overlap >= chunk_size` its loop does not terminate, so a
      positive step is required of callers. */
  method ChunkText(text: string, chunkSize: int, overlap: int) returns (chunks: seq<string>)
    requires chunkSize - overlap > 0
    ensures chunks == Chunks(CleanText(text), chunkSize, overlap)
  {
    var cleaned := CleanText(text);
    chunks := SlideWindows(cleaned, chunkSize, overlap);
  }

  method SlideWindows(cleaned: string, chunkSize: int, overlap: int) returns (chunks: seq<string>)
    requires chunkSize - overlap > 0
    ensures chunks == Chunks(cleaned, chunkSize, overlap)
  {
    var step := chunkSize - overlap;
    chunks := [];
    var start: nat := 0;
    while start < |cleaned|
      invariant chunks + ChunksFrom(cleaned, start, step, chunkSize) == Chunks(cleaned, chunkSize, overlap)
      decreases |cleaned| - start
    {
      var end := start + chunkSize;
      var chunk := PySlice(cleaned, start, end);
      assert ChunksFrom(cleaned, start, step, chunkSize)
               == [chunk] + ChunksFrom(cleaned, start + step, step, chunkSize);
      assert (chunks + [chunk]) + ChunksFrom(cleaned, start + step, step, chunkSize)
               == chunks + ([chunk] + ChunksFrom(cleaned, start + step, step, chunkSize));
      chunks := chunks + [chunk];
      start := start + step;
    }
  }

  // ---------------------------------------------------------------------
  // Properties of chunk_text
  // ---------------------------------------------------------------------

  /** The number of window starts 0, step, 2*step, ... below `len`. */
  function CeilDiv(len: nat, step: int): nat
    requires step > 0
  {
    (len + step - 1) / step
  }

  lemma MulSign(d: int, s: int)
    requires s > 0
    ensures d >= 1 ==> d * s >= s
    ensures d <= -1 ==> d * s <= -s
  {
  }

  lemma DivBetween(x: int, s: int, n: int)
    requires s > 0 && 0 <= n && n * s <= x < n * s + s
    ensures x / s == n
  {
    var q, r := x / s, x % s;
    assert x == q * s + r && 0 <= r < s;
    var d := q - n;
    assert x - n * s == d * s + r;
    MulSign(d, s);
  }

  /** `ceil(len / step)` is the least n whose n windows reach the end:
      n*step >= len, while the last start (n-1)*step is still inside. */
  lemma CeilDivIsWindowCount(len: nat, step: int, n: nat)
    requires step > 0
    ensures n == CeilDiv(len, step) <==> n * step >= len && (n == 0 || (n - 1) * step < len)
  {
    var c := CeilDiv(len, step);
    var x := len + step - 1;
    assert x == c * step + x % step;
    assert c * step >= len;
    assert c == 0 || (c - 1) * step < len by {
      if c > 0 { assert (c - 1) * step == c * step - step; }
    }
    if n * step >= len && (n == 0 || (n - 1) * step < len) {
      if n > 0 {
        assert (n - 1) * step == n * step - step;
        DivBetween(x, step, n);
      } else {
        DivBetween(x, step, 0);
      }
    }
  }

  lemma {:induction false} ChunksFromCount(cleaned: string, start: nat, step: int, chunkSize: int)
    requires step > 0
    ensures var n := |ChunksFrom(cleaned, start, step, chunkSize)|;
            start + n * step >= |cleaned| && (n == 0 || start + (n - 1) * step < |cleaned|)
    decreases |cleaned| - start
  {
    if start < |cleaned| {
      ChunksFromCount(cleaned, start + step, step, chunkSize);
      var m := |ChunksFrom(cleaned, start + step, step, chunkSize)|;
      assert (m + 1) * step == m * step + step;
      assert m > 0 ==> (m - 1) * step + step == m * step;
    }
  }

  /** The chunk count is `ceil(len / step)` for the cleaned text's length
      `len`; in particular an empty cleaned text gives no chunks. */
  lemma ChunkCount(cleaned: string, chunkSize: int, overlap: int)
    requires chunkSize - overlap > 0
    ensures |Chunks(cleaned, chunkSize, overlap)| == CeilDiv(|cleaned|, chunkSize - overlap)
    ensures Chunks(cleaned, chunkSize, overlap) == [] <==> cleaned == []
  {
    var step := chunkSize - overlap;
    ChunksFromCount(cleaned, 0, step, chunkSize);
    CeilDivIsWindowCount(|cleaned|, step, |Chunks(cleaned, chunkSize, overlap)|);
  }

  lemma {:induction false} ChunksFromAt(cleaned: string, start: nat, step: int, chunkSize: int, i: nat)
    requires step > 0 && i < |ChunksFrom(cleaned, start, step, chunkSize)|
    ensures 0 <= i * step && start + i * step < |cleaned|
    ensures ChunksFrom(cleaned, start, step, chunkSize)[i] == Window(cleaned, start + i * step, chunkSize)
    decreases i
  {
    if i > 0 {
      ChunksFromAt(cleaned, start + step, step, chunkSize, i - 1);
      assert start + step + (i - 1) * step == start + i * step;
    } else {
      assert i * step == 0;
    }
  }

  /** Chunk i is the window of `chunkSize` characters starting at i*step,
      clipped to the text; that start lies inside the text, so every chunk
      holds between 1 and chunkSize characters. */
  lemma ChunkShape(cleaned: string, chunkSize: int, overlap: int, i: nat)
    requires chunkSize - overlap > 0 && chunkSize >= 1
    requires i < |Chunks(cleaned, chunkSize, overlap)|
    ensures 0 <= i * (chunkSize - overlap) < |cleaned|
    ensures var start := i * (chunkSize - overlap);
            && Chunks(cleaned, chunkSize, overlap)[i] == cleaned[start..Min(start + chunkSize, |cleaned|)]
            && 1 <= |Chunks(cleaned, chunkSize, overlap)[i]| <= chunkSize
  {
    ChunksFromAt(cleaned, 0, chunkSize - overlap, chunkSize, i);
  }

  /** `chunk[overlap:]` for every chunk, concatenated. */
  function Tails(chunks: seq<string>, overlap: int): string
  {
    if chunks == [] then [] else PySlice(chunks[0], overlap, |chunks[0]|) + Tails(chunks[1..], overlap)
  }

  /** Gluing the chunks back: the first chunk, then every later chunk
      without its first `overlap` characters. */
  function Glue(chunks: seq<string>, overlap: int): string
  {
    if chunks == [] then [] else chunks[0] + Tails(chunks[1..], overlap)
  }

  /** `chunk[overlap:]` of the window at `next`: what that window adds
      beyond the previous one, which ends `overlap` characters into it. */
  lemma DropOverlap(cleaned: string, next: nat, step: int, chunkSize: int, overlap: int)
    requires 0 <= overlap < chunkSize && step == chunkSize - overlap && next < |cleaned|
    ensures var w := Window(cleaned, next, chunkSize);
            PySlice(w, overlap, |w|)
              == cleaned[Min(next + overlap, |cleaned|)..Min(next + step + overlap, |cleaned|)]
  {
  }

  lemma SplitSuffix(s: string, lo: nat, hi: nat)
    requires lo <= hi <= |s|
    ensures s[lo..hi] + s[hi..] == s[lo..]
  {
  }

  lemma TailsUnfold(cleaned: string, next: nat, step: int, chunkSize: int, overlap: int)
    requires step > 0 && next < |cleaned|
    ensures var w := Window(cleaned, next, chunkSize);
            Tails(ChunksFrom(cleaned, next, step, chunkSize), overlap)
              == PySlice(w, overlap, |w|) + Tails(ChunksFrom(cleaned, next + step, step, chunkSize), overlap)
  {
    var cs := ChunksFrom(cleaned, next, step, chunkSize);
    assert cs[1..] == ChunksFrom(cleaned, next + step, step, chunkSize);
  }

  /** The tails of the windows from `next` on cover the text from
      `next + overlap`, where the window before `next` ends. */
  lemma {:induction false} TailsFrom(cleaned: string, next: nat, step: int, chunkSize: int, overlap: int)
    requires 0 <= overlap < chunkSize && step == chunkSize - overlap
    ensures Tails(ChunksFrom(cleaned, next, step, chunkSize), overlap)
              == cleaned[Min(next + overlap, |cleaned|)..]
    decreases |cleaned| - next
  {
    if next < |cleaned| {
      var lo, hi := Min(next + overlap, |cleaned|), Min(next + step + overlap, |cleaned|);
      TailsFrom(cleaned, next + step, step, chunkSize, overlap);
      TailsUnfold(cleaned, next, step, chunkSize, overlap);
      DropOverlap(cleaned, next, step, chunkSize, overlap);
      SplitSuffix(cleaned, lo, hi);
    }
  }

  /** With 0 <= overlap < chunkSize consecutive chunks overlap by exactly
      `overlap` characters and together cover the cleaned text: gluing them
      back reconstructs it. */
  lemma ChunksReassemble(cleaned: string, chunkSize: int, overlap: int)
    requires 0 <= overlap < chunkSize
    ensures Glue(Chunks(cleaned, chunkSize, overlap), overlap) == cleaned
  {
    var step := chunkSize - overlap;
    if cleaned != [] {
      var cs := Chunks(cleaned, chunkSize, overlap);
      assert cs[1..] == ChunksFrom(cleaned, step, step, chunkSize);
      TailsFrom(cleaned, step, step, chunkSize, overlap);
      var lo := Min(chunkSize, |cleaned|);
      assert cs[0] == cleaned[..lo];
      SplitSuffix(cleaned, 0, lo);
    }
  }
}
