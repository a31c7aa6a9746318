/**
 * The text chunkers of the retrieval pipeline (chapter-04/chunking_strategies.py):
 * fixed-size windows with overlap, recursive splitting on a ladder of
 * separators, greedy merging of small pieces, and the placement of the merged
 * pieces back in the text. Chunk metadata dictionaries are not modelled.
 */
module Chunking {
  import opened Text
  import Ranking

  /** A chunk of a document: its stripped text, its index and the span it was cut from. */
  datatype Chunk = Chunk(text: string, index: int, startChar: int, endChar: int)

  /** `p` occurs somewhere in `t`. */
  ghost predicate Within(p: string, t: string) {
    exists i :: OccursAt(t, p, i)
  }

  lemma {:induction false} WithinTrans(a: string, b: string, c: string)
    requires Within(a, b) && Within(b, c)
    ensures Within(a, c)
  {
    var i :| OccursAt(b, a, i);
    var j :| OccursAt(c, b, j);
    forall k | 0 <= k < |a| ensures c[j + i + k] == a[k] {
      assert a[k] == b[i..i + |a|][k] == b[i + k];
      assert b[i + k] == c[j..j + |b|][i + k] == c[j + i + k];
    }
    assert c[j + i..j + i + |a|] == a;
    assert OccursAt(c, a, j + i);
  }

  /** Non-empty, and neither starts nor ends with whitespace: what `strip` leaves of a non-blank string. */
  predicate Stripped(p: string) {
    p != [] && !IsSpace(p[0]) && !IsSpace(p[|p| - 1])
  }

  lemma StripStripped(s: string)
    requires Stripped(s)
    ensures Strip(s) == s
  {
    assert TrimLeft(s) == s;
    assert TrimRight(s) == s;
  }

  // ---------------------------------------------------------------------------
  // FixedSizeChunker
  // ---------------------------------------------------------------------------

  /**
   * One round of `FixedSizeChunker.chunk` as written: the window ends at
   * `start + size` cut to the text, the next start is `overlap` before that
   * end, and the loop ends once the next start is at or past the last
   * character. The result is the next start and whether the loop ends.
   */
  function WrittenStep(length: int, size: int, overlap: int, start: int): (r: (int, bool))
    ensures r.0 <= length - overlap
    ensures r.1 <==> r.0 >= length - 1
  {
    var end := if start + size > length then length else start + size;
    var next := end - overlap;
    (next, next >= length - 1)
  }

  /**
   * With an overlap of two or more, no round ever ends the loop and the
   * `while` test keeps holding: on any non-empty text the loop as written
   * runs forever, re-emitting its last window.
   */
  lemma WrittenNeverStops(length: int, size: int, overlap: int, start: int)
    requires length >= 1 && overlap >= 2
    ensures !WrittenStep(length, size, overlap, start).1
    ensures WrittenStep(length, size, overlap, start).0 < length
  {
  }

  /** The default sizes (500 and 50) on a 600-character text: the start reaches 550 and stays there. */
  lemma WrittenFixedPoint()
    ensures WrittenStep(600, 500, 50, 0) == (450, false)
    ensures WrittenStep(600, 500, 50, 450) == (550, false)
    ensures WrittenStep(600, 500, 50, 550) == (550, false)
  {
  }

  /**
   * With no overlap the loop can end one character early: on 10 characters
   * in windows of 3 the windows are [0, 3), [3, 6) and [6, 9), and the
   * last character is in none of them.
   */
  lemma WrittenDropsLast()
    ensures WrittenStep(10, 3, 0, 0) == (3, false)
    ensures WrittenStep(10, 3, 0, 3) == (6, false)
    ensures WrittenStep(10, 3, 0, 6) == (9, true)
  {
  }

  /** A kept window of the fixed-size chunker: a non-blank slice of at most `size` characters, stored stripped. */
  ghost predicate Window(text: string, size: int, c: Chunk) {
    && 0 <= c.startChar < c.endChar <= |text|
    && c.endChar - c.startChar <= size
    && c.text == Strip(text[c.startChar..c.endChar])
    && c.text != []
  }

  /** Position `p` lies in the span of some chunk. */
  ghost predicate CoveredBy(chunks: seq<Chunk>, p: int) {
    exists i :: 0 <= i < |chunks| && chunks[i].startChar <= p < chunks[i].endChar
  }

  /** Every non-whitespace character before `limit` lies in some chunk's span. */
  ghost predicate CoveredTo(text: string, chunks: seq<Chunk>, limit: int) {
    forall p :: 0 <= p < limit && p < |text| && !IsSpace(text[p]) ==> CoveredBy(chunks, p)
  }

  /** Keeping one more chunk keeps every position covered so far covered. */
  lemma CoveredSnoc(text: string, chunks: seq<Chunk>, limit: int, c: Chunk)
    requires CoveredTo(text, chunks, limit)
    ensures CoveredTo(text, chunks + [c], limit)
  {
    forall p | 0 <= p < limit && p < |text| && !IsSpace(text[p]) ensures CoveredBy(chunks + [c], p) {
      var i :| 0 <= i < |chunks| && chunks[i].startChar <= p < chunks[i].endChar;
      assert (chunks + [c])[i] == chunks[i];
    }
  }

  /** A window with a non-whitespace character in it is not blank. */
  lemma NotBlank(text: string, start: int, end: int, p: int)
    requires 0 <= start <= p < end <= |text| && !IsSpace(text[p])
    ensures Strip(text[start..end]) != []
  {
    assert text[start..end][p - start] == text[p];
  }

  /**
   * What the fixed-size loop keeps: chunks numbered from 0, each a kept
   * window starting before `bound`, starts increasing, and every
   * non-whitespace character before `covered` in some chunk.
   */
  ghost predicate FixedSoFar(text: string, size: int, chunks: seq<Chunk>, bound: int, covered: int) {
    && Numbered(text, size, chunks, bound)
    && Increasing(chunks)
    && CoveredTo(text, chunks, covered)
  }

  /** The chunks the loop holds after cutting the window [start, end): one more unless the window is blank. */
  function AfterWindow(text: string, chunks: seq<Chunk>, start: int, end: int): seq<Chunk>
    requires 0 <= start <= end <= |text|
  {
    var window := text[start..end];
    if Strip(window) != [] then chunks + [Chunk(Strip(window), |chunks|, start, end)] else chunks
  }

  /** The chunks start further right each time. */
  ghost predicate Increasing(chunks: seq<Chunk>) {
    forall i, j :: 0 <= i < j < |chunks| ==> chunks[i].startChar < chunks[j].startChar
  }

  lemma IncreasingSnoc(chunks: seq<Chunk>, c: Chunk)
    requires Increasing(chunks)
    requires forall i :: 0 <= i < |chunks| ==> chunks[i].startChar < c.startChar
    ensures Increasing(chunks + [c])
  {
    var next := chunks + [c];
    forall i, j | 0 <= i < j < |next| ensures next[i].startChar < next[j].startChar {
      assert next[i] == chunks[i];
      if j < |chunks| {
        assert next[j] == chunks[j];
      }
    }
  }

  /** Kept windows numbered from 0, all starting before `bound`. */
  ghost predicate Numbered(text: string, size: int, chunks: seq<Chunk>, bound: int) {
    forall i :: 0 <= i < |chunks| ==> chunks[i].index == i && Window(text, size, chunks[i]) && chunks[i].startChar < bound
  }

  lemma NumberedSnoc(text: string, size: int, chunks: seq<Chunk>, bound: int, c: Chunk)
    requires Numbered(text, size, chunks, bound)
    requires c.index == |chunks| && Window(text, size, c) && bound <= c.startChar
    ensures Numbered(text, size, chunks + [c], c.startChar + 1)
  {
    var next := chunks + [c];
    forall i | 0 <= i < |next| ensures next[i].index == i && Window(text, size, next[i]) && next[i].startChar < c.startChar + 1 {
      if i < |chunks| {
        assert next[i] == chunks[i];
      }
    }
  }

  lemma StepWindows(text: string, size: int, chunks: seq<Chunk>, start: int, covered: int, end: int)
    requires FixedSoFar(text, size, chunks, start, covered)
    requires 0 <= start < end <= |text| && end - start <= size
    ensures Numbered(text, size, AfterWindow(text, chunks, start, end), start + 1)
    ensures Increasing(AfterWindow(text, chunks, start, end))
  {
    var window := text[start..end];
    if Strip(window) != [] {
      var c := Chunk(Strip(window), |chunks|, start, end);
      assert AfterWindow(text, chunks, start, end) == chunks + [c];
      IncreasingSnoc(chunks, c);
      NumberedSnoc(text, size, chunks, start, c);
    }
  }

  lemma StepCovered(text: string, size: int, chunks: seq<Chunk>, start: int, covered: int, end: int)
    requires CoveredTo(text, chunks, covered)
    requires 0 <= start <= covered && start < end <= |text|
    ensures CoveredTo(text, AfterWindow(text, chunks, start, end), end)
  {
    var next := AfterWindow(text, chunks, start, end);
    if next != chunks {
      CoveredSnoc(text, chunks, covered, next[|chunks|]);
    }
    forall p | 0 <= p < end && p < |text| && !IsSpace(text[p]) ensures CoveredBy(next, p) {
      if start <= p {
        NotBlank(text, start, end, p);
        assert next[|next| - 1].startChar <= p < next[|next| - 1].endChar;
      }
    }
  }

  /** One window of the loop: keeping it when it is not blank extends what is covered to its end. */
  lemma FixedStep(text: string, size: int, chunks: seq<Chunk>, start: int, covered: int, end: int)
    requires FixedSoFar(text, size, chunks, start, covered)
    requires 0 <= start <= covered && start < end <= |text| && end - start <= size
    ensures FixedSoFar(text, size, AfterWindow(text, chunks, start, end), start + 1, end)
  {
    StepWindows(text, size, chunks, start, covered, end);
    StepCovered(text, size, chunks, start, covered, end);
  }

  /**
   * The windows the fixed-size loop cuts from `start` on: each runs `size`
   * characters or to the end of the text, the next starts `overlap` before the
   * end of the last, and the window that reaches the end of the text is the last.
   */
  function Spans(length: int, size: int, overlap: int, start: int): (r: seq<(int, int)>)
    requires 0 <= overlap < size
    decreases length - start
  {
    if start >= length then []
    else
      var end := if start + size > length then length else start + size;
      [(start, end)] + (if end == length then [] else Spans(length, size, overlap, end - overlap))
  }

  /**
   * The windows from `start` on: the first starts at `start`, each lies in
   * the text and is `size` long or ends the text, and the last ends the text.
   */
  lemma {:induction false} SpansPlaced(length: int, size: int, overlap: int, start: int)
    requires 0 <= overlap < size && 0 <= start < length
    ensures var r := Spans(length, size, overlap, start);
            && r != [] && r[0].0 == start && r[|r| - 1].1 == length
            && (forall k :: 0 <= k < |r| ==> start <= r[k].0 < r[k].1 <= length)
            && (forall k :: 0 <= k < |r| ==> r[k].1 == (if r[k].0 + size > length then length else r[k].0 + size))
    decreases length - start
  {
    var r := Spans(length, size, overlap, start);
    var end := if start + size > length then length else start + size;
    if end < length {
      var rest := Spans(length, size, overlap, end - overlap);
      SpansPlaced(length, size, overlap, end - overlap);
      assert r == [(start, end)] + rest;
      forall k | 0 < k < |r| ensures r[k] == rest[k - 1] {
      }
    }
  }

  /** Each window but the last stops short of `length`, and the next one starts `overlap` before its end. */
  ghost predicate Linked(r: seq<(int, int)>, length: int, overlap: int) {
    forall k :: 0 <= k < |r| - 1 ==> r[k].1 < length && r[k + 1].0 == r[k].1 - overlap
  }

  /**
   * Consecutive windows: each window but the last stops short of the end of
   * the text, and the next one starts `overlap` before its end.
   */
  lemma {:induction false} SpansLinked(length: int, size: int, overlap: int, start: int)
    requires 0 <= overlap < size
    ensures Linked(Spans(length, size, overlap, start), length, overlap)
    decreases length - start
  {
    var r := Spans(length, size, overlap, start);
    if start < length {
      var end := if start + size > length then length else start + size;
      if end < length {
        var rest := Spans(length, size, overlap, end - overlap);
        SpansLinked(length, size, overlap, end - overlap);
        assert r == [(start, end)] + rest;
        forall k | 0 < k < |r| - 1 ensures r[k].1 < length && r[k + 1].0 == r[k].1 - overlap {
          assert r[k] == rest[k - 1] && r[k + 1] == rest[k];
          assert 0 <= k - 1 < |rest| - 1;
        }
        assert r[1] == rest[0];
      }
    }
  }

  /** The text of the window [start, end), stripped. */
  function WindowText(text: string, start: int, end: int): string {
    if 0 <= start <= end <= |text| then Strip(text[start..end]) else []
  }

  /** Each window with its stripped text. */
  function Windows(text: string, spans: seq<(int, int)>): (r: seq<(int, int, string)>)
    ensures |r| == |spans|
  {
    if spans == [] then []
    else [(spans[0].0, spans[0].1, WindowText(text, spans[0].0, spans[0].1))] + Windows(text, spans[1..])
  }

  lemma {:induction false} WindowsSnoc(text: string, spans: seq<(int, int)>, span: (int, int))
    ensures Windows(text, spans + [span]) == Windows(text, spans) + [(span.0, span.1, WindowText(text, span.0, span.1))]
    decreases |spans|
  {
    if spans == [] {
      assert spans + [span] == [span];
    } else {
      assert (spans + [span])[0] == spans[0] && (spans + [span])[1..] == spans[1..] + [span];
      WindowsSnoc(text, spans[1..], span);
    }
  }

  /** The chunks some windows give: the non-blank ones, numbered from `n`. */
  function Kept(windows: seq<(int, int, string)>, n: int): seq<Chunk> {
    if windows == [] then []
    else
      var w := windows[0].2;
      (if w != [] then [Chunk(w, n, windows[0].0, windows[0].1)] else []) + Kept(windows[1..], if w != [] then n + 1 else n)
  }

  /** The chunks some windows of a text give. */
  function KeptChunks(text: string, spans: seq<(int, int)>, n: int): seq<Chunk> {
    Kept(Windows(text, spans), n)
  }

  /** One more window adds its chunk, unless it is blank, after the chunks of the windows before it. */
  lemma {:induction false} KeptSnoc(windows: seq<(int, int, string)>, x: (int, int, string), n: int)
    ensures Kept(windows + [x], n)
            == Kept(windows, n) + (if x.2 != [] then [Chunk(x.2, n + |Kept(windows, n)|, x.0, x.1)] else [])
    decreases |windows|
  {
    if windows == [] {
      assert windows + [x] == [x];
    } else {
      var w := windows[0].2;
      var m := if w != [] then n + 1 else n;
      assert (windows + [x])[0] == windows[0] && (windows + [x])[1..] == windows[1..] + [x];
      KeptSnoc(windows[1..], x, m);
    }
  }

  /** The windows of a non-empty text start at 0; an empty text has none. */
  lemma SpansStart(length: int, size: int, overlap: int)
    requires 0 <= overlap < size
    ensures length <= 0 ==> Spans(length, size, overlap, 0) == []
    ensures length > 0 ==> |Spans(length, size, overlap, 0)| > 0 && Spans(length, size, overlap, 0)[0].0 == 0
  {
    if length > 0 {
      SpansPlaced(length, size, overlap, 0);
    }
  }

  /**
   * Window `n`, starting at `start`, runs `size` characters or to the end of
   * the text; it is the last exactly when it reaches the end, and otherwise
   * the next one starts `overlap` before its end.
   */
  lemma SpansNext(length: int, size: int, overlap: int, n: int, start: int, end: int)
    requires 0 <= overlap < size
    requires 0 <= n < |Spans(length, size, overlap, 0)| && Spans(length, size, overlap, 0)[n].0 == start
    requires end == (if start + size > length then length else start + size)
    ensures var r := Spans(length, size, overlap, 0);
            && r[..n] + [(start, end)] == r[..n + 1]
            && (end == length <==> n + 1 == |r|)
            && (n + 1 < |r| ==> r[n + 1].0 == end - overlap)
  {
    var r := Spans(length, size, overlap, 0);
    SpansPlaced(length, size, overlap, 0);
    SpansLinked(length, size, overlap, 0);
    assert Linked(r, length, overlap);
    assert r[n] == (start, end);
    if n + 1 < |r| {
      assert r[n + 1].0 == r[n].1 - overlap;
    }
  }

  /** The chunks of some windows, and one more window: its chunk, unless it is blank, comes last. */
  lemma KeptLast(windows: seq<(int, int, string)>, x: (int, int, string), chunks: seq<Chunk>)
    requires chunks == Kept(windows, 0)
    ensures Kept(windows + [x], 0) == if x.2 != [] then chunks + [Chunk(x.2, |chunks|, x.0, x.1)] else chunks
  {
    KeptSnoc(windows, x, 0);
    if x.2 == [] {
      assert chunks + [] == chunks;
    }
  }

  /** What window `n` does to the chunks of the windows before it. */
  lemma KeptAdvance(text: string, spans: seq<(int, int)>, n: int, chunks: seq<Chunk>, start: int, end: int)
    requires 0 <= n < |spans| && spans[..n] + [(start, end)] == spans[..n + 1]
    requires 0 <= start <= end <= |text| && chunks == KeptChunks(text, spans[..n], 0)
    ensures AfterWindow(text, chunks, start, end) == KeptChunks(text, spans[..n + 1], 0)
  {
    WindowsSnoc(text, spans[..n], (start, end));
    KeptLast(Windows(text, spans[..n]), (start, end, WindowText(text, start, end)), chunks);
  }

  /**
   * The state of the fixed-size loop before window `n`, which starts at
   * `start`: the chunks kept so far are those of the first `n` windows, and
   * they are numbered, increasing and cover the text up to `covered`.
   */
  ghost predicate Cutting(text: string, size: int, overlap: int, chunks: seq<Chunk>, start: int, covered: int, bound: int, n: int)
    requires 0 <= overlap < size
  {
    var all := Spans(|text|, size, overlap, 0);
    && 0 <= bound <= start <= covered <= |text|
    && FixedSoFar(text, size, chunks, bound, covered)
    && 0 <= n <= |all|
    && (start < |text| ==> n < |all| && all[n].0 == start)
    && (start >= |text| ==> n == |all|)
    && chunks == KeptChunks(text, all[..n], 0)
  }

  /** Before the first window. */
  lemma CuttingStart(text: string, size: int, overlap: int)
    requires 0 <= overlap < size
    ensures Cutting(text, size, overlap, [], 0, 0, 0, 0)
  {
    SpansStart(|text|, size, overlap);
    assert Spans(|text|, size, overlap, 0)[..0] == [];
  }

  /**
   * One window of the loop: keeping its chunk, unless it is blank, moves on
   * to the next window, or, after the window that reaches the end of the
   * text, to the end.
   */
  lemma CuttingStep(text: string, size: int, overlap: int, chunks: seq<Chunk>, start: int, covered: int, bound: int, n: int, end: int)
    requires 0 <= overlap < size && start < |text|
    requires Cutting(text, size, overlap, chunks, start, covered, bound, n)
    requires end == (if start + size > |text| then |text| else start + size)
    ensures Cutting(text, size, overlap, AfterWindow(text, chunks, start, end),
                    if end == |text| then end else end - overlap, end, start + 1, n + 1)
  {
    var all := Spans(|text|, size, overlap, 0);
    FixedStep(text, size, chunks, start, covered, end);
    SpansNext(|text|, size, overlap, n, start, end);
    KeptAdvance(text, all, n, chunks, start, end);
  }

  /** After the last window: the chunks are those of all the windows. */
  lemma CuttingDone(text: string, size: int, overlap: int, chunks: seq<Chunk>, covered: int, bound: int, n: int)
    requires 0 <= overlap < size && Cutting(text, size, overlap, chunks, |text|, covered, bound, n)
    ensures chunks == KeptChunks(text, Spans(|text|, size, overlap, 0), 0)
    ensures forall i :: 0 <= i < |chunks| ==> chunks[i].index == i && Window(text, size, chunks[i])
    ensures Increasing(chunks)
    ensures CoveredTo(text, chunks, |text|)
  {
    var all := Spans(|text|, size, overlap, 0);
    assert all[..n] == all;
    FixedDone(text, size, chunks, bound, covered);
  }

  /**
   * `FixedSizeChunker.chunk`, exiting after the window that reaches the end
   * of the text: the chunks are the non-blank windows, stripped, numbered
   * from 0, each at most `size` long, starting further right each time, and
   * together they cover every non-whitespace character of the text.
   */
  method FixedChunks(text: string, size: int, overlap: int) returns (chunks: seq<Chunk>)
    requires 0 <= overlap < size
    ensures chunks == KeptChunks(text, Spans(|text|, size, overlap, 0), 0)
    ensures forall i :: 0 <= i < |chunks| ==> chunks[i].index == i && Window(text, size, chunks[i])
    ensures Increasing(chunks)
    ensures CoveredTo(text, chunks, |text|)
  {
    chunks := [];
    var start, index := 0, 0;
    ghost var covered, bound, n := 0, 0, 0;
    CuttingStart(text, size, overlap);
    while start < |text|
      invariant index == |chunks|
      invariant Cutting(text, size, overlap, chunks, start, covered, bound, n)
      decreases |text| - start
    {
      var end := start + size;
      if end > |text| {
        end := |text|;
      }
      CuttingStep(text, size, overlap, chunks, start, covered, bound, n, end);
      var window := text[start..end];
      ghost var before := chunks;
      if Strip(window) != [] {
        chunks := chunks + [Chunk(Strip(window), index, start, end)];
        index := index + 1;
      }
      assert chunks == AfterWindow(text, before, start, end);
      covered, bound, n := end, start + 1, n + 1;
      if end == |text| {
        break;
      }
      start := end - overlap;
    }
    CuttingDone(text, size, overlap, chunks, covered, bound, n);
  }

  lemma FixedDone(text: string, size: int, chunks: seq<Chunk>, bound: int, covered: int)
    requires FixedSoFar(text, size, chunks, bound, covered) && covered >= |text|
    ensures forall i :: 0 <= i < |chunks| ==> chunks[i].index == i && Window(text, size, chunks[i])
    ensures Increasing(chunks)
    ensures CoveredTo(text, chunks, |text|)
  {
    assert Numbered(text, size, chunks, bound);
  }

  // ---------------------------------------------------------------------------
  // RecursiveChunker
  // ---------------------------------------------------------------------------

  /** `list(text)`: one single-character string per character. */
  function Chars(text: string): (parts: seq<string>)
    ensures |parts| == |text|
    ensures forall k :: 0 <= k < |parts| ==> parts[k] == [text[k]]
  {
    seq(|text|, k requires 0 <= k < |text| => [text[k]])
  }

  ghost predicate AllWithin(parts: seq<string>, host: string) {
    forall k :: 0 <= k < |parts| ==> Within(parts[k], host)
  }

  lemma AllWithinTrans(parts: seq<string>, mid: string, host: string)
    requires AllWithin(parts, mid) && Within(mid, host)
    ensures AllWithin(parts, host)
  {
    forall k | 0 <= k < |parts| ensures Within(parts[k], host) {
      WithinTrans(parts[k], mid, host);
    }
  }

  lemma AllWithinCons(x: string, parts: seq<string>, host: string)
    requires Within(x, host) && AllWithin(parts, host)
    ensures AllWithin([x] + parts, host)
  {
    forall k | 0 <= k < |[x] + parts| ensures Within(([x] + parts)[k], host) {
      if k > 0 {
        assert ([x] + parts)[k] == parts[k - 1];
      }
    }
  }

  lemma AllWithinTail(parts: seq<string>, host: string)
    requires parts != [] && AllWithin(parts, host)
    ensures AllWithin(parts[1..], host)
  {
    forall k | 0 <= k < |parts| - 1 ensures Within(parts[1..][k], host) {
      assert parts[1..][k] == parts[k + 1];
    }
  }

  /** Every part of `split` occurs in the string split. */
  lemma {:induction false} SplitWithin(s: string, sep: string)
    requires |sep| > 0
    ensures AllWithin(Split(s, sep), s)
    decreases |s|
  {
    var i := FindFrom(s, sep, 0);
    if i == -1 {
      assert Split(s, sep) == [s];
      OccursWithin(s, s, 0);
    } else {
      var rest := s[i + |sep|..];
      assert Split(s, sep) == [s[..i]] + Split(rest, sep);
      SplitWithin(rest, sep);
      OccursWithin(s, rest, i + |sep|);
      AllWithinTrans(Split(rest, sep), rest, s);
      OccursWithin(s, s[..i], 0);
      AllWithinCons(s[..i], Split(rest, sep), s);
    }
  }

  lemma OccursWithin(t: string, p: string, i: int)
    requires OccursAt(t, p, i)
    ensures Within(p, t)
  {
  }

  /** The pieces one separator cuts: characters for the empty separator, `split` otherwise. */
  function SplitOn(text: string, sep: string): (parts: seq<string>)
    ensures AllWithin(parts, text)
    ensures sep == "" ==> forall k :: 0 <= k < |parts| ==> |parts[k]| == 1
  {
    if sep == "" then
      var parts := Chars(text);
      assert forall k :: 0 <= k < |parts| ==> OccursAt(text, parts[k], k);
      parts
    else
      SplitWithin(text, sep);
      Split(text, sep)
  }

  /** The last resort of `_recursive_split`: consecutive slices of `size` characters. */
  function Slices(text: string, size: int): (r: seq<string>)
    requires size >= 1
    ensures forall k :: 0 <= k < |r| ==> r[k] != [] && |r[k]| <= size && Within(r[k], text)
    decreases |text|
  {
    if text == [] then []
    else if |text| <= size then
      assert OccursAt(text, text, 0);
      [text]
    else
      var rest := Slices(text[size..], size);
      assert OccursAt(text, text[..size], 0);
      assert OccursAt(text, text[size..], size);
      forall k | 0 <= k < |rest| ensures Within(rest[k], text) {
        WithinTrans(rest[k], text[size..], text);
      }
      [text[..size]] + rest
  }

  /** Concatenated again, the slices give back the text. */
  lemma {:induction false} SlicesConcat(text: string, size: int)
    requires size >= 1
    ensures Concat(Slices(text, size)) == text
    decreases |text|
  {
    if |text| > size {
      var rest := Slices(text[size..], size);
      SlicesConcat(text[size..], size);
      assert Slices(text, size) == [text[..size]] + rest;
      assert ([text[..size]] + rest)[1..] == rest;
    }
  }

  /** The strings of `parts` one after another. */
  function Concat(parts: seq<string>): string {
    if parts == [] then "" else parts[0] + Concat(parts[1..])
  }

  /** What `_recursive_split` promises of each piece: not empty, at most `size` long, and taken from `host`. */
  ghost predicate Piece(p: string, host: string, size: int) {
    p != [] && |p| <= size && Within(p, host)
  }

  ghost predicate AllPieces(r: seq<string>, host: string, size: int) {
    forall k :: 0 <= k < |r| ==> Piece(r[k], host, size)
  }

  ghost predicate AllStripped(parts: seq<string>) {
    forall k :: 0 <= k < |parts| ==> Stripped(parts[k])
  }

  lemma PiecesConcat(a: seq<string>, b: seq<string>, host: string, size: int)
    requires AllPieces(a, host, size) && AllPieces(b, host, size)
    ensures AllPieces(a + b, host, size)
    ensures AllStripped(a) && AllStripped(b) ==> AllStripped(a + b)
  {
    forall k | 0 <= k < |a + b| ensures Piece((a + b)[k], host, size) && (AllStripped(a) && AllStripped(b) ==> Stripped((a + b)[k])) {
      if k < |a| {
        assert (a + b)[k] == a[k];
      } else {
        assert (a + b)[k] == b[k - |a|];
      }
    }
  }

  /** Pieces of a part are pieces of whatever the part was taken from. */
  lemma PiecesWithin(r: seq<string>, part: string, host: string, size: int)
    requires AllPieces(r, part, size) && Within(part, host)
    ensures AllPieces(r, host, size)
  {
    forall k | 0 <= k < |r| ensures Piece(r[k], host, size) {
      WithinTrans(r[k], part, host);
    }
  }

  /**
   * `_recursive_split(text, separators)`: nothing for an empty text; with no
   * separators left, slices of `size`; otherwise the text cut at the first
   * separator, each cut stripped, blank cuts dropped, short ones kept and
   * long ones split again with the remaining separators. Every piece is
   * non-empty, at most `size` long and taken from the text; when the empty
   * separator is on the ladder, every piece is also stripped.
   */
  function RecursiveSplit(text: string, seps: seq<string>, size: int): (r: seq<string>)
    requires size >= 1
    ensures AllPieces(r, text, size)
    ensures "" in seps ==> AllStripped(r)
    decreases |seps|, 1, 0
  {
    if text == [] then []
    else if seps == [] then Slices(text, size)
    else
      assert seps[0] != "" && "" in seps ==> "" in seps[1..];
      SplitEach(SplitOn(text, seps[0]), seps[1..], size, text)
  }

  /** The loop of `_recursive_split` over the cuts of one separator. */
  function SplitEach(splits: seq<string>, rest: seq<string>, size: int, host: string): (r: seq<string>)
    requires size >= 1
    requires AllWithin(splits, host)
    ensures AllPieces(r, host, size)
    ensures "" in rest || AllFit(splits, size) ==> AllStripped(r)
    decreases |rest| + 1, 0, |splits|
  {
    if splits == [] then []
    else
      var head := Refine(splits[0], rest, size);
      AllWithinTail(splits, host);
      var tail := SplitEach(splits[1..], rest, size, host);
      EachJoin(splits, rest, size, host, head, tail);
      head + tail
  }

  /** The pieces of the first cut followed by those of the others are pieces of the host. */
  lemma EachJoin(splits: seq<string>, rest: seq<string>, size: int, host: string, head: seq<string>, tail: seq<string>)
    requires splits != [] && AllWithin(splits, host)
    requires AllPieces(head, splits[0], size) && ("" in rest || |splits[0]| <= size ==> AllStripped(head))
    requires AllPieces(tail, host, size) && ("" in rest || AllFit(splits[1..], size) ==> AllStripped(tail))
    ensures AllPieces(head + tail, host, size)
    ensures "" in rest || AllFit(splits, size) ==> AllStripped(head + tail)
  {
    assert AllFit(splits, size) ==> |splits[0]| <= size && AllFit(splits[1..], size);
    PiecesWithin(head, splits[0], host, size);
    PiecesConcat(head, tail, host, size);
  }

  /** One cut, stripped: dropped when blank, kept when short, split further when long. */
  function Refine(split: string, rest: seq<string>, size: int): (r: seq<string>)
    requires size >= 1
    ensures AllPieces(r, split, size)
    ensures "" in rest || |split| <= size ==> AllStripped(r)
    decreases |rest| + 1, 0, 0
  {
    var s := Strip(split);
    if s == [] then []
    else if |s| <= size then
      StripPiece(split, size);
      [s]
    else
      var r := RecursiveSplit(s, rest, size);
      assert |split| > size;
      PiecesWithin(r, s, split, size);
      r
  }

  /** A non-blank cut that fits is kept whole, stripped. */
  lemma StripPiece(split: string, size: int)
    requires Strip(split) != [] && |Strip(split)| <= size
    ensures AllPieces([Strip(split)], split, size) && AllStripped([Strip(split)])
  {
    var s := Strip(split);
    var i :| OccursAt(split, s, i);
    assert Within(s, split);
    assert Stripped(s);
    assert [s][0] == s;
  }

  // ---------------------------------------------------------------------------
  // Merging small pieces
  // ---------------------------------------------------------------------------

  /** Joining one more part adds the separator and the part (Python's `join`). */
  lemma {:induction false} JoinSnoc(parts: seq<string>, x: string, sep: string)
    requires parts != []
    ensures Join(parts + [x], sep) == Join(parts, sep) + sep + x
    decreases |parts|
  {
    if |parts| == 1 {
      assert (parts + [x])[1..] == [x];
    } else {
      assert (parts + [x])[1..] == parts[1..] + [x];
      JoinSnoc(parts[1..], x, sep);
    }
  }

  ghost predicate AllFit(parts: seq<string>, size: int) {
    forall k :: 0 <= k < |parts| ==> |parts[k]| <= size
  }

  /** No output would fit together with the next one. */
  ghost predicate Separated(merged: seq<string>, size: int) {
    forall k :: 0 <= k < |merged| - 1 ==> |merged[k]| + 1 + |merged[k + 1]| > size
  }

  /** The merge loop's bookkeeping before piece `i`: closed groups are stripped, at most one per piece consumed. */
  ghost predicate MergeShape(chunks: seq<string>, merged: seq<string>, i: int) {
    1 <= i <= |chunks| && AllStripped(merged) && |merged| <= i - 1
  }

  /** With pieces that fit, closed groups and the open group fit. */
  ghost predicate MergeFit(chunks: seq<string>, size: int, merged: seq<string>, current: string) {
    AllFit(chunks, size) ==> AllFit(merged, size) && |current| <= size
  }

  /** With stripped pieces, the groups joined with spaces are the pieces consumed joined with spaces. */
  ghost predicate MergeJoined(chunks: seq<string>, merged: seq<string>, current: string, i: int)
    requires 0 <= i <= |chunks|
  {
    AllStripped(chunks) ==> Stripped(current) && Join(merged + [current], " ") == Join(chunks[..i], " ")
  }

  /** With stripped pieces, no closed group would fit together with the group after it. */
  ghost predicate MergeGapped(chunks: seq<string>, size: int, merged: seq<string>, current: string) {
    AllStripped(chunks) ==> Separated(merged, size) && (merged != [] ==> |merged[|merged| - 1]| + 1 + |current| > size)
  }

  /** The merge loop's state before piece `i`: closed groups `merged` and the open group `current`. */
  ghost predicate MergeInv(chunks: seq<string>, size: int, merged: seq<string>, current: string, i: int) {
    && MergeShape(chunks, merged, i)
    && MergeFit(chunks, size, merged, current)
    && MergeJoined(chunks, merged, current, i)
    && MergeGapped(chunks, size, merged, current)
  }

  /** The group closed by the loop or at the end: kept stripped unless blank. */
  function Close(merged: seq<string>, current: string): seq<string> {
    if Strip(current) != [] then merged + [Strip(current)] else merged
  }

  lemma CloseStripped(merged: seq<string>, current: string)
    requires Stripped(current)
    ensures Close(merged, current) == merged + [current]
  {
    StripStripped(current);
  }

  lemma CloseShape(chunks: seq<string>, size: int, merged: seq<string>, current: string)
    requires AllStripped(merged)
    ensures AllStripped(Close(merged, current)) && |Close(merged, current)| <= |merged| + 1
    ensures AllFit(merged, size) && |current| <= size ==> AllFit(Close(merged, current), size)
  {
    var next := Close(merged, current);
    forall k | 0 <= k < |next| ensures Stripped(next[k]) && (AllFit(merged, size) && |current| <= size ==> |next[k]| <= size) {
      if k < |merged| {
        assert next[k] == merged[k];
      }
    }
  }

  lemma SeparatedSnoc(merged: seq<string>, size: int, current: string)
    requires Separated(merged, size) && (merged != [] ==> |merged[|merged| - 1]| + 1 + |current| > size)
    ensures Separated(merged + [current], size)
  {
    var next := merged + [current];
    forall k | 0 <= k < |next| - 1 ensures |next[k]| + 1 + |next[k + 1]| > size {
      assert next[k] == merged[k];
      if k < |merged| - 1 {
        assert next[k + 1] == merged[k + 1];
      }
    }
  }

  lemma MergeStart(chunks: seq<string>, size: int)
    requires chunks != []
    ensures MergeInv(chunks, size, [], chunks[0], 1)
  {
    assert chunks[..1] == [chunks[0]];
  }

  lemma JoinedGrow(chunks: seq<string>, merged: seq<string>, current: string, i: int)
    requires 1 <= i < |chunks| && MergeJoined(chunks, merged, current, i)
    ensures MergeJoined(chunks, merged, current + " " + chunks[i], i + 1)
  {
    var chunk, combined := chunks[i], current + " " + chunks[i];
    assert chunks[..i + 1] == chunks[..i] + [chunk];
    if AllStripped(chunks) {
      assert Stripped(chunk);
      JoinSnoc(chunks[..i], chunk, " ");
      JoinSnoc(merged + [current], chunk, " ");
      if merged == [] {
        assert Join([combined], " ") == combined;
        assert Join([current] + [chunk], " ") == current + " " + Join([chunk], " ");
      } else {
        JoinSnoc(merged, combined, " ");
        JoinSnoc(merged, current, " ");
      }
    }
  }

  /** The next piece fits: it joins the open group. */
  lemma MergeGrow(chunks: seq<string>, size: int, merged: seq<string>, current: string, i: int)
    requires MergeInv(chunks, size, merged, current, i) && i < |chunks|
    requires |current + " " + chunks[i]| <= size
    ensures MergeInv(chunks, size, merged, current + " " + chunks[i], i + 1)
  {
    JoinedGrow(chunks, merged, current, i);
  }

  lemma JoinedCut(chunks: seq<string>, merged: seq<string>, current: string, i: int)
    requires 1 <= i < |chunks| && MergeJoined(chunks, merged, current, i)
    ensures MergeJoined(chunks, Close(merged, current), chunks[i], i + 1)
  {
    var chunk := chunks[i];
    assert chunks[..i + 1] == chunks[..i] + [chunk];
    if AllStripped(chunks) {
      assert Stripped(chunk);
      CloseStripped(merged, current);
      JoinSnoc(chunks[..i], chunk, " ");
      JoinSnoc(merged + [current], chunk, " ");
    }
  }

  lemma GappedCut(chunks: seq<string>, size: int, merged: seq<string>, current: string, i: int)
    requires 1 <= i < |chunks| && MergeGapped(chunks, size, merged, current) && MergeJoined(chunks, merged, current, i)
    requires |current + " " + chunks[i]| > size
    ensures MergeGapped(chunks, size, Close(merged, current), chunks[i])
  {
    if AllStripped(chunks) {
      CloseStripped(merged, current);
      SeparatedSnoc(merged, size, current);
    }
  }

  /** The next piece does not fit: the open group is closed and the piece opens the next one. */
  lemma MergeCut(chunks: seq<string>, size: int, merged: seq<string>, current: string, i: int)
    requires MergeInv(chunks, size, merged, current, i) && i < |chunks|
    requires |current + " " + chunks[i]| > size
    ensures MergeInv(chunks, size, Close(merged, current), chunks[i], i + 1)
  {
    CloseShape(chunks, size, merged, current);
    JoinedCut(chunks, merged, current, i);
    GappedCut(chunks, size, merged, current, i);
  }

  lemma MergeEnd(chunks: seq<string>, size: int, merged: seq<string>, current: string)
    requires MergeInv(chunks, size, merged, current, |chunks|)
    ensures var out := Close(merged, current);
            && AllStripped(out)
            && |out| <= |chunks|
            && (AllFit(chunks, size) ==> AllFit(out, size))
            && (AllStripped(chunks) ==> Join(out, " ") == Join(chunks, " ") && out != [])
            && (AllStripped(chunks) ==> Separated(out, size))
  {
    CloseShape(chunks, size, merged, current);
    assert chunks[..|chunks|] == chunks;
    if AllStripped(chunks) {
      CloseStripped(merged, current);
      SeparatedSnoc(merged, size, current);
    }
  }

  // ---------------------------------------------------------------------------
  // The greedy grouping, stated apart from the loop
  // ---------------------------------------------------------------------------

  /**
   * `runs` cuts `chunks` into consecutive, non-empty runs of whole pieces,
   * greedily: a run of two or more pieces joined with spaces fits in `size`,
   * and a run ends before a following piece only when that piece, joined to
   * it with a space, would not fit.
   */
  ghost predicate Greedy(chunks: seq<string>, size: int, runs: seq<seq<string>>)
    decreases |runs|
  {
    if runs == [] then chunks == []
    else
      var r := runs[0];
      && r != [] && |r| <= |chunks| && chunks[..|r|] == r
      && (|r| >= 2 ==> |Join(r, " ")| <= size)
      && (|r| < |chunks| ==> |Join(r, " ")| + 1 + |chunks[|r|]| > size)
      && Greedy(chunks[|r|..], size, runs[1..])
  }

  /**
   * The runs from the open run `chunks[start..i]` on, piece `i` next: the
   * piece joins the run when the run joined with spaces still fits, and
   * otherwise starts the next run.
   */
  function Runs(chunks: seq<string>, size: int, start: int, i: int): seq<seq<string>>
    requires 0 <= start < i <= |chunks|
    decreases |chunks| - i
  {
    if i == |chunks| then [chunks[start..]]
    else if |Join(chunks[start..i + 1], " ")| <= size then Runs(chunks, size, start, i + 1)
    else [chunks[start..i]] + Runs(chunks, size, i, i + 1)
  }

  /** The greedy runs of all the pieces. */
  function GreedyRuns(chunks: seq<string>, size: int): seq<seq<string>> {
    if chunks == [] then [] else Runs(chunks, size, 0, 1)
  }

  /** Each run joined with spaces and stripped; runs that strip to nothing are dropped. */
  function RunTexts(runs: seq<seq<string>>): seq<string> {
    if runs == [] then [] else Close([], Join(runs[0], " ")) + RunTexts(runs[1..])
  }

  /** What `_merge_small_chunks` returns, by the greedy runs. */
  function GreedyMerge(chunks: seq<string>, size: int): seq<string> {
    RunTexts(GreedyRuns(chunks, size))
  }

  /** A longer prefix of the parts joins to a longer string. */
  lemma {:induction false} JoinPrefixShorter(parts: seq<string>, m: int, sep: string)
    requires 1 <= m <= |parts|
    ensures |Join(parts[..m], sep)| <= |Join(parts, sep)|
    decreases |parts| - m
  {
    if m < |parts| {
      assert parts[..m + 1] == parts[..m] + [parts[m]];
      JoinSnoc(parts[..m], parts[m], sep);
      JoinPrefixShorter(parts, m + 1, sep);
    } else {
      assert parts[..m] == parts;
    }
  }

  /** A run cut as a greedy run must be, before a greedy grouping of the rest, starts a greedy grouping. */
  lemma GreedyCons(chunks: seq<string>, size: int, r: seq<string>, runs: seq<seq<string>>)
    requires r != [] && |r| <= |chunks| && chunks[..|r|] == r
    requires |r| >= 2 ==> |Join(r, " ")| <= size
    requires |r| < |chunks| ==> |Join(r, " ")| + 1 + |chunks[|r|]| > size
    requires Greedy(chunks[|r|..], size, runs)
    ensures Greedy(chunks, size, [r] + runs)
  {
    assert ([r] + runs)[0] == r && ([r] + runs)[1..] == runs;
  }

  /** The piece after the open run fits: the run grows. */
  lemma RunsGrow(chunks: seq<string>, size: int, start: int, i: int)
    requires 0 <= start < i < |chunks|
    requires |Join(chunks[start..i], " ") + " " + chunks[i]| <= size
    ensures Join(chunks[start..i + 1], " ") == Join(chunks[start..i], " ") + " " + chunks[i]
    ensures Runs(chunks, size, start, i) == Runs(chunks, size, start, i + 1)
  {
    assert chunks[start..i + 1] == chunks[start..i] + [chunks[i]];
    JoinSnoc(chunks[start..i], chunks[i], " ");
  }

  /** The open run is the last one: it groups the rest of the pieces. */
  lemma GreedyLast(chunks: seq<string>, size: int, start: int)
    requires 0 <= start < |chunks|
    requires |chunks| - start >= 2 ==> |Join(chunks[start..|chunks|], " ")| <= size
    ensures Greedy(chunks[start..], size, [chunks[start..]])
  {
    var rest := chunks[start..];
    assert rest == chunks[start..|chunks|] && rest[..|rest|] == rest && rest[|rest|..] == [];
    GreedyCons(rest, size, rest, []);
  }

  /** A piece that does not fit ends the open run before a greedy grouping of the pieces from it on. */
  lemma GreedyAfterCut(chunks: seq<string>, size: int, start: int, i: int, runs: seq<seq<string>>)
    requires 0 <= start < i < |chunks|
    requires i - start >= 2 ==> |Join(chunks[start..i], " ")| <= size
    requires |Join(chunks[start..i], " ") + " " + chunks[i]| > size
    requires Greedy(chunks[i..], size, runs)
    ensures Greedy(chunks[start..], size, [chunks[start..i]] + runs)
  {
    var rest, r := chunks[start..], chunks[start..i];
    assert rest[..|r|] == r && rest[|r|] == chunks[i] && rest[|r|..] == chunks[i..];
    GreedyCons(rest, size, r, runs);
  }

  /** The runs from an open run that fits are a greedy grouping of the rest of the pieces. */
  lemma {:induction false} RunsGreedyFrom(chunks: seq<string>, size: int, start: int, i: int)
    requires 0 <= start < i <= |chunks|
    requires i - start >= 2 ==> |Join(chunks[start..i], " ")| <= size
    ensures Greedy(chunks[start..], size, Runs(chunks, size, start, i))
    decreases |chunks| - i
  {
    if i == |chunks| {
      GreedyLast(chunks, size, start);
    } else if |Join(chunks[start..i], " ") + " " + chunks[i]| <= size {
      RunsGrow(chunks, size, start, i);
      RunsGreedyFrom(chunks, size, start, i + 1);
    } else {
      RunsCut(chunks, size, start, i);
      RunsGreedyFrom(chunks, size, i, i + 1);
      GreedyAfterCut(chunks, size, start, i, Runs(chunks, size, i, i + 1));
    }
  }

  /** The greedy runs are a greedy grouping of the pieces. */
  lemma RunsGreedy(chunks: seq<string>, size: int)
    ensures Greedy(chunks, size, GreedyRuns(chunks, size))
  {
    if chunks != [] {
      RunsGreedyFrom(chunks, size, 0, 1);
      assert chunks[0..] == chunks;
    }
  }

  /** A run that is cut where a greedy run must be cut is no shorter than any run that fits. */
  lemma RunNotShorter(chunks: seq<string>, size: int, ra: seq<string>, rb: seq<string>)
    requires ra != [] && |ra| <= |chunks| && chunks[..|ra|] == ra
    requires |ra| < |chunks| ==> |Join(ra, " ")| + 1 + |chunks[|ra|]| > size
    requires rb != [] && |rb| <= |chunks| && chunks[..|rb|] == rb
    requires |rb| >= 2 ==> |Join(rb, " ")| <= size
    ensures |rb| <= |ra|
  {
    if |ra| < |rb| {
      assert rb[..|ra| + 1] == ra + [chunks[|ra|]];
      JoinSnoc(ra, chunks[|ra|], " ");
      JoinPrefixShorter(rb, |ra| + 1, " ");
      assert false;
    }
  }

  /** There is only one greedy grouping of the pieces. */
  lemma {:induction false} GreedyUnique(chunks: seq<string>, size: int, a: seq<seq<string>>, b: seq<seq<string>>)
    requires Greedy(chunks, size, a) && Greedy(chunks, size, b)
    ensures a == b
    decreases |chunks|
  {
    if chunks != [] {
      RunNotShorter(chunks, size, a[0], b[0]);
      RunNotShorter(chunks, size, b[0], a[0]);
      assert a[0] == b[0];
      GreedyUnique(chunks[|a[0]|..], size, a[1..], b[1..]);
      assert a == [a[0]] + a[1..] && b == [b[0]] + b[1..];
    }
  }

  /** The merge of the pieces is the stripped joins of their one greedy grouping. */
  lemma GreedyMergeOf(chunks: seq<string>, size: int, runs: seq<seq<string>>)
    requires Greedy(chunks, size, runs)
    ensures GreedyMerge(chunks, size) == RunTexts(runs)
  {
    RunsGreedy(chunks, size);
    GreedyUnique(chunks, size, runs, GreedyRuns(chunks, size));
  }

  /** The merge loop's state against the greedy runs: `current` joins the open run `chunks[start..i]`. */
  ghost predicate MergeTrack(chunks: seq<string>, size: int, merged: seq<string>, current: string, start: int, i: int) {
    && 0 <= start < i <= |chunks|
    && current == Join(chunks[start..i], " ")
    && merged + RunTexts(Runs(chunks, size, start, i)) == GreedyMerge(chunks, size)
  }

  lemma TrackStart(chunks: seq<string>, size: int)
    requires chunks != []
    ensures MergeTrack(chunks, size, [], chunks[0], 0, 1)
  {
    assert chunks[0..1] == [chunks[0]];
  }

  lemma TrackGrow(chunks: seq<string>, size: int, merged: seq<string>, current: string, start: int, i: int)
    requires MergeTrack(chunks, size, merged, current, start, i) && i < |chunks|
    requires |current + " " + chunks[i]| <= size
    ensures MergeTrack(chunks, size, merged, current + " " + chunks[i], start, i + 1)
  {
    RunsGrow(chunks, size, start, i);
  }

  /** Closing a group appends what closing it alone gives. */
  lemma CloseAppends(merged: seq<string>, current: string)
    ensures Close(merged, current) == merged + Close([], current)
  {
  }

  /** The texts of a run followed by more runs. */
  lemma RunTextsCons(run: seq<string>, runs: seq<seq<string>>)
    ensures RunTexts([run] + runs) == Close([], Join(run, " ")) + RunTexts(runs)
  {
    assert ([run] + runs)[1..] == runs;
  }

  /** A run of one piece joins to the piece. */
  lemma JoinOne(chunks: seq<string>, i: int)
    requires 0 <= i < |chunks|
    ensures Join(chunks[i..i + 1], " ") == chunks[i]
  {
    assert chunks[i..i + 1] == [chunks[i]];
  }

  lemma RunTextsOne(run: seq<string>)
    ensures RunTexts([run]) == Close([], Join(run, " "))
  {
    assert [run][1..] == [];
  }

  /** A piece that does not fit closes the open run. */
  lemma RunsCut(chunks: seq<string>, size: int, start: int, i: int)
    requires 0 <= start < i < |chunks|
    requires |Join(chunks[start..i], " ") + " " + chunks[i]| > size
    ensures Join(chunks[start..i + 1], " ") == Join(chunks[start..i], " ") + " " + chunks[i]
    ensures Runs(chunks, size, start, i) == [chunks[start..i]] + Runs(chunks, size, i, i + 1)
  {
    assert chunks[start..i + 1] == chunks[start..i] + [chunks[i]];
    JoinSnoc(chunks[start..i], chunks[i], " ");
  }

  lemma TrackCut(chunks: seq<string>, size: int, merged: seq<string>, current: string, start: int, i: int)
    requires MergeTrack(chunks, size, merged, current, start, i) && i < |chunks|
    requires |current + " " + chunks[i]| > size
    ensures MergeTrack(chunks, size, Close(merged, current), chunks[i], i, i + 1)
  {
    var tail := RunTexts(Runs(chunks, size, i, i + 1));
    var closed := Close([], current);
    RunsCut(chunks, size, start, i);
    RunTextsCons(chunks[start..i], Runs(chunks, size, i, i + 1));
    assert RunTexts(Runs(chunks, size, start, i)) == closed + tail;
    CloseAppends(merged, current);
    Ranking.ConcatAssoc(merged, closed, tail);
    assert Close(merged, current) + tail == GreedyMerge(chunks, size);
    JoinOne(chunks, i);
  }

  lemma TrackEnd(chunks: seq<string>, size: int, merged: seq<string>, current: string, start: int)
    requires MergeTrack(chunks, size, merged, current, start, |chunks|)
    ensures Close(merged, current) == GreedyMerge(chunks, size)
  {
    var run := chunks[start..|chunks|];
    assert run == chunks[start..];
    assert Runs(chunks, size, start, |chunks|) == [run];
    RunTextsOne(run);
    CloseAppends(merged, current);
  }

  /**
   * `_merge_small_chunks`: walks the pieces, joining each to the current
   * group with a space while the result fits in `size`, otherwise closing
   * the group. Every output is stripped and non-empty; with pieces that fit,
   * outputs fit; with stripped pieces, joining the outputs with spaces gives
   * the pieces joined with spaces, and no output would fit together with
   * the next one. The outputs are exactly the stripped joins of the greedy
   * runs, blank runs dropped.
   */
  method MergeSmall(chunks: seq<string>, size: int) returns (merged: seq<string>)
    ensures merged == GreedyMerge(chunks, size)
    ensures AllStripped(merged)
    ensures |merged| <= |chunks|
    ensures AllFit(chunks, size) ==> AllFit(merged, size)
    ensures AllStripped(chunks) ==> Join(merged, " ") == Join(chunks, " ") && (merged == [] <==> chunks == [])
    ensures AllStripped(chunks) ==> Separated(merged, size)
  {
    if chunks == [] {
      return [];
    }
    merged := [];
    var current := chunks[0];
    MergeStart(chunks, size);
    TrackStart(chunks, size);
    var i := 1;
    ghost var start := 0;
    while i < |chunks|
      invariant MergeInv(chunks, size, merged, current, i)
      invariant MergeTrack(chunks, size, merged, current, start, i)
    {
      var chunk := chunks[i];
      var combined := current + " " + chunk;
      if |combined| <= size {
        MergeGrow(chunks, size, merged, current, i);
        TrackGrow(chunks, size, merged, current, start, i);
        current := combined;
      } else {
        MergeCut(chunks, size, merged, current, i);
        TrackCut(chunks, size, merged, current, start, i);
        merged, current, start := Close(merged, current), chunk, i;
      }
      i := i + 1;
    }
    MergeEnd(chunks, size, merged, current);
    TrackEnd(chunks, size, merged, current, start);
    merged := Close(merged, current);
  }

  // ---------------------------------------------------------------------------
  // Placing the merged pieces
  // ---------------------------------------------------------------------------

  /** `s.find(sub, start)` for a non-empty `sub`: the first occurrence at or after `start`, or -1. */
  function Find(s: string, sub: string, from: int): (r: int)
    requires |sub| > 0 && from >= 0
    ensures r == -1 || (from <= r && OccursAt(s, sub, r))
    ensures forall j :: from <= j && (r == -1 || j < r) ==> !OccursAt(s, sub, j)
  {
    if from > |s| then -1 else FindFrom(s, sub, from)
  }

  /**
   * Where `RecursiveChunker.chunk` puts a piece: at its first occurrence at
   * or after `from`, or at `from` itself when it occurs nowhere there; the
   * span is as long as the piece.
   */
  ghost predicate Placed(text: string, c: Chunk, from: int) {
    && c.endChar == c.startChar + |c.text|
    && (|| (from <= c.startChar && OccursAt(text, c.text, c.startChar)
            && forall j :: from <= j < c.startChar ==> !OccursAt(text, c.text, j))
        || (c.startChar == from && forall j :: from <= j ==> !OccursAt(text, c.text, j)))
  }

  /** The texts of the chunks, in order. */
  function Texts(chunks: seq<Chunk>): (r: seq<string>)
    ensures |r| == |chunks| && forall i :: 0 <= i < |chunks| ==> r[i] == chunks[i].text
  {
    seq(|chunks|, i requires 0 <= i < |chunks| => chunks[i].text)
  }

  /** Where the search for chunk `k` starts: just after the previous chunk's start. */
  function From(chunks: seq<Chunk>, k: int): int
    requires 0 <= k <= |chunks|
  {
    if k == 0 then 0 else chunks[k - 1].startChar + 1
  }

  /** Where the placing loop puts a piece searched for from `from`. */
  function PlaceAt(text: string, t: string, from: int): int
    requires |t| > 0 && from >= 0
  {
    var f := Find(text, t, from);
    if f == -1 then from else f
  }

  /** `c` is where the placing loop puts its text when searching from `from`. */
  predicate Located(text: string, c: Chunk, from: int) {
    |c.text| > 0 && from >= 0 && c.startChar == PlaceAt(text, c.text, from) && c.endChar == c.startChar + |c.text|
  }

  lemma LocatedPlaced(text: string, c: Chunk, from: int)
    requires Located(text, c, from)
    ensures Placed(text, c, from)
  {
    var f := Find(text, c.text, from);
    if f == -1 {
      assert forall j :: from <= j ==> !OccursAt(text, c.text, j);
    }
  }

  /** Chunks numbered from 0, each holding the matching merged piece. */
  predicate Holding(merged: seq<string>, chunks: seq<Chunk>) {
    |chunks| <= |merged| && forall k :: 0 <= k < |chunks| ==> chunks[k].text == merged[k] && chunks[k].index == k
  }

  /** Each chunk located by a search from just after the previous chunk's start, built up one chunk at a time. */
  ghost predicate AllLocated(text: string, chunks: seq<Chunk>)
    decreases |chunks|
  {
    chunks != [] ==>
      AllLocated(text, chunks[..|chunks| - 1]) && Located(text, chunks[|chunks| - 1], From(chunks, |chunks| - 1))
  }

  /** Every chunk of a located sequence is located. */
  lemma {:induction false} LocatedAt(text: string, chunks: seq<Chunk>, k: int)
    requires AllLocated(text, chunks) && 0 <= k < |chunks|
    ensures Located(text, chunks[k], From(chunks, k))
    decreases |chunks|
  {
    if k < |chunks| - 1 {
      var prefix := chunks[..|chunks| - 1];
      LocatedAt(text, prefix, k);
      assert prefix[k] == chunks[k];
      assert From(prefix, k) == From(chunks, k);
    }
  }

  ghost predicate PlacedAll(text: string, merged: seq<string>, chunks: seq<Chunk>) {
    Holding(merged, chunks) && AllLocated(text, chunks)
  }

  lemma HoldingSnoc(merged: seq<string>, chunks: seq<Chunk>, c: Chunk)
    requires Holding(merged, chunks) && |chunks| < |merged|
    requires c.text == merged[|chunks|] && c.index == |chunks|
    ensures Holding(merged, chunks + [c])
  {
    var next := chunks + [c];
    forall k | 0 <= k < |next| ensures next[k].text == merged[k] && next[k].index == k {
      if k < |chunks| {
        assert next[k] == chunks[k];
      } else {
        assert next[k] == c;
      }
    }
  }

  lemma LocatedSnoc(text: string, chunks: seq<Chunk>, c: Chunk)
    requires AllLocated(text, chunks) && Located(text, c, From(chunks, |chunks|))
    ensures AllLocated(text, chunks + [c])
  {
    var next := chunks + [c];
    assert next[..|next| - 1] == chunks;
    assert From(next, |chunks|) == From(chunks, |chunks|);
  }

  lemma PlacedSnoc(text: string, merged: seq<string>, chunks: seq<Chunk>, c: Chunk)
    requires PlacedAll(text, merged, chunks) && |chunks| < |merged|
    requires c.text == merged[|chunks|] && c.index == |chunks| && Located(text, c, From(chunks, |chunks|))
    ensures PlacedAll(text, merged, chunks + [c])
  {
    HoldingSnoc(merged, chunks, c);
    LocatedSnoc(text, chunks, c);
  }

  /** One round of the placing loop: the piece's first occurrence from `from` on, or `from` itself. */
  method Place(text: string, chunkText: string, index: int, from: int) returns (c: Chunk)
    requires Stripped(chunkText) && from >= 0
    ensures c.text == chunkText && c.index == index && Located(text, c, from) && Placed(text, c, from)
  {
    var start := Find(text, chunkText, from);
    if start == -1 {
      start := from;
    }
    assert start == PlaceAt(text, chunkText, from);
    var end := start + |chunkText|;
    StripStripped(chunkText);
    c := Chunk(Strip(chunkText), index, start, end);
    assert c.text == chunkText;
    LocatedPlaced(text, c, from);
  }

  /**
   * `RecursiveChunker.chunk`: the pieces of `_recursive_split`, merged, each
   * placed at its next occurrence after the previous chunk's start. Every
   * chunk is stripped, non-empty and at most `size` long, numbered from 0 and
   * placed as `Placed` says; their texts are the greedy merge of the split
   * pieces; with the empty separator on the ladder, the chunks joined with
   * spaces are the split pieces joined with spaces.
   */
  method RecursiveChunks(text: string, seps: seq<string>, size: int) returns (chunks: seq<Chunk>)
    requires size >= 1
    ensures forall i :: 0 <= i < |chunks| ==> chunks[i].index == i && Stripped(chunks[i].text) && |chunks[i].text| <= size
    ensures forall i :: 0 <= i < |chunks| ==> Placed(text, chunks[i], From(chunks, i))
    ensures Texts(chunks) == GreedyMerge(RecursiveSplit(text, seps, size), size)
    ensures "" in seps ==> Join(Texts(chunks), " ") == Join(RecursiveSplit(text, seps, size), " ")
  {
    var raw := RecursiveSplit(text, seps, size);
    assert AllFit(raw, size);
    var merged := MergeSmall(raw, size);
    chunks := [];
    var currentPos := 0;
    for i := 0 to |merged|
      invariant |chunks| == i
      invariant PlacedAll(text, merged, chunks)
      invariant currentPos == From(chunks, i) >= 0
    {
      var c := Place(text, merged[i], i, currentPos);
      PlacedSnoc(text, merged, chunks, c);
      chunks := chunks + [c];
      currentPos := c.startChar + 1;
    }
    assert Texts(chunks) == merged;
    forall i | 0 <= i < |chunks| ensures Placed(text, chunks[i], From(chunks, i)) {
      LocatedAt(text, chunks, i);
      LocatedPlaced(text, chunks[i], From(chunks, i));
    }
  }
}
