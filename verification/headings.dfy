/**
 * `HeadingBasedChunker._parse_headings`: a Markdown text cut into sections at
 * the heading lines whose level is wanted. Text before the first such heading
 * forms a level-0 preamble; blank sections are dropped.
 */
module Headings {
  import opened Wrappers
  import opened Text

  /** What the heading pattern captures: the number of `#` and the title. */
  datatype Heading = Heading(level: int, title: string)

  /** One section: its heading (empty for the preamble), level, text and span. */
  datatype Section = Section(heading: string, level: int, text: string, start: int, end: int)

  /** The number of `#` characters `line` starts with. */
  function Hashes(line: string): (k: nat)
    ensures k <= |line|
    ensures forall j :: 0 <= j < k ==> line[j] == '#'
    ensures k < |line| ==> line[k] != '#'
  {
    if line != [] && line[0] == '#' then 1 + Hashes(line[1..]) else 0
  }

  /** The end of the run of whitespace in `s` that starts at `from`. */
  function SpaceRun(s: string, from: nat): (n: nat)
    requires from <= |s|
    ensures from <= n <= |s|
    decreases |s| - from
  {
    if from < |s| && IsSpace(s[from]) then SpaceRun(s, from + 1) else from
  }

  /** The run is all whitespace and stops at the first other character. */
  lemma {:induction false} SpaceRunSpans(s: string, from: nat)
    requires from <= |s|
    ensures forall i :: from <= i < SpaceRun(s, from) ==> IsSpace(s[i])
    ensures SpaceRun(s, from) < |s| ==> !IsSpace(s[SpaceRun(s, from)])
    decreases |s| - from
  {
    if from < |s| && IsSpace(s[from]) {
      SpaceRunSpans(s, from + 1);
    }
  }

  /**
   * `line` has the form the heading pattern `^(#{1,6})\s+(.+)$` describes when
   * its `#` group has `level` characters and its title group the last `n`:
   * one to six `#`, at least one whitespace character, a non-empty title.
   */
  ghost predicate HeadingShape(line: string, level: int, n: int) {
    && 1 <= level <= 6 && 1 <= n && level + 1 + n <= |line|
    && (forall j :: 0 <= j < level ==> line[j] == '#')
    && (forall j :: level <= j < |line| - n ==> IsSpace(line[j]))
  }

  /**
   * `re.match(r'^(#{1,6})\s+(.+)$', line)` on one line: the `#` group and the
   * title group, or nothing. The whitespace group is greedy, so the title
   * starts at the first non-whitespace character after it, or is the last
   * character when only whitespace follows the `#`.
   */
  function MatchHeading(line: string): (r: Option<Heading>)
    ensures r.Some? ==> 1 <= r.value.level <= 6 && 0 < |r.value.title| < |line|
  {
    var k := Hashes(line);
    if 1 <= k <= 6 && k + 2 <= |line| && IsSpace(line[k]) then
      var w := SpaceRun(line, k);
      if w < |line| then Some(Heading(k, line[w..])) else Some(Heading(k, line[|line| - 1..]))
    else None
  }

  /**
   * A match has heading shape: its title is the tail of the line, and starts
   * with a non-whitespace character unless it is the one last character.
   */
  lemma MatchShape(line: string)
    requires MatchHeading(line).Some?
    ensures var h := MatchHeading(line).value;
            && HeadingShape(line, h.level, |h.title|)
            && |h.title| <= |line| && h.title == line[|line| - |h.title|..]
            && (|h.title| == 1 || !IsSpace(h.title[0]))
  {
    var k := Hashes(line);
    SpaceRunSpans(line, k);
  }

  /**
   * Conversely, a line of heading shape always matches, with that many `#`:
   * the pattern accepts exactly the lines of heading shape.
   */
  lemma ShapeMatches(line: string, level: int, n: int)
    requires HeadingShape(line, level, n)
    ensures MatchHeading(line).Some? && MatchHeading(line).value.level == level
  {
    var k := Hashes(line);
    assert IsSpace(line[level]) && line[level] != '#';
    assert k == level;
  }

  /** A heading line starts with `#`, so it is never blank. */
  lemma HeadingNotBlank(line: string)
    requires MatchHeading(line).Some?
    ensures line != [] && line[0] == '#' && !IsSpace(line[0])
  {
    MatchShape(line);
  }

  /** `line` is a heading of a wanted level, so it opens a section. */
  predicate Opens(line: string, levels: seq<int>) {
    MatchHeading(line).Some? && MatchHeading(line).value.level in levels
  }

  /** The number of lines that open a section. */
  function OpenCount(lines: seq<string>, levels: seq<int>): (n: nat)
    ensures n <= |lines|
  {
    if lines == [] then 0
    else OpenCount(lines[..|lines| - 1], levels) + (if Opens(lines[|lines| - 1], levels) then 1 else 0)
  }

  /** The number of sections that open at a heading: all but a leading preamble (level 0). */
  function HeadingCount(sections: seq<Section>): (n: nat)
    ensures n <= |sections|
  {
    |sections| - (if sections != [] && sections[0].level == 0 then 1 else 0)
  }

  /** Where the lines that open a section start, in the text the lines spell (each followed by a newline). */
  function OpenOffsets(lines: seq<string>, levels: seq<int>): (r: seq<int>)
  {
    if lines == [] then []
    else
      var front := lines[..|lines| - 1];
      OpenOffsets(front, levels) + (if Opens(lines[|lines| - 1], levels) then [|Terminated(front)|] else [])
  }

  /** Where the sections that open at a heading start, in order. */
  function HeadingStarts(sections: seq<Section>): seq<int> {
    if sections == [] then []
    else
      var last := sections[|sections| - 1];
      HeadingStarts(sections[..|sections| - 1]) + (if last.level != 0 then [last.start] else [])
  }

  /** Every line followed by a newline, one after another. */
  function Terminated(lines: seq<string>): string {
    if lines == [] then "" else lines[0] + "\n" + Terminated(lines[1..])
  }

  lemma {:induction false} TerminatedJoin(parts: seq<string>)
    requires parts != []
    ensures Terminated(parts) == Join(parts, "\n") + "\n"
    decreases |parts|
  {
    if |parts| > 1 {
      TerminatedJoin(parts[1..]);
    }
  }

  /** The lines of a text, each with its newline, spell the text plus one newline. */
  lemma TerminatedSplit(text: string)
    ensures Terminated(Split(text, "\n")) == text + "\n"
  {
    JoinSplit(text, "\n");
    TerminatedJoin(Split(text, "\n"));
  }

  lemma {:induction false} TerminatedSnoc(lines: seq<string>, line: string)
    ensures Terminated(lines + [line]) == Terminated(lines) + (line + "\n")
    decreases |lines|
  {
    if lines == [] {
      assert [] + [line] == [line];
    } else {
      assert (lines + [line])[1..] == lines[1..] + [line];
      TerminatedSnoc(lines[1..], line);
    }
  }

  /** The lines before line `j` spell the start of the text, up to line `j`. */
  lemma {:induction false} TerminatedPrefix(lines: seq<string>, j: int)
    requires 0 <= j <= |lines|
    ensures Terminated(lines) == Terminated(lines[..j]) + Terminated(lines[j..])
    decreases j
  {
    if j > 0 {
      assert lines[1..][..j - 1] == lines[..j][1..] && lines[1..][j - 1..] == lines[j..];
      TerminatedPrefix(lines[1..], j - 1);
    } else {
      assert lines[j..] == lines;
    }
  }

  /**
   * The offset `OpenOffsets` records for line `j` is where that line begins in
   * the text: at 0 or just after a newline, and the line follows it.
   */
  lemma LineOffset(lines: seq<string>, j: int)
    requires 0 <= j < |lines|
    ensures var o, t := |Terminated(lines[..j])|, Terminated(lines);
            && o + |lines[j]| < |t| && t[o..o + |lines[j]|] == lines[j] && t[o + |lines[j]|] == '\n'
            && (o == 0 || t[o - 1] == '\n')
  {
    var t := Terminated(lines);
    var before := Terminated(lines[..j]);
    TerminatedPrefix(lines, j);
    assert lines[j..][1..] == lines[j + 1..];
    assert Terminated(lines[j..]) == lines[j] + "\n" + Terminated(lines[j + 1..]);
    assert t == before + (lines[j] + "\n" + Terminated(lines[j + 1..]));
    assert t[|before|..|before| + |lines[j]|] == lines[j];
    if j > 0 {
      assert lines[..j] == lines[..j - 1] + [lines[j - 1]];
      TerminatedSnoc(lines[..j - 1], lines[j - 1]);
      assert before[|before| - 1] == '\n';
    }
  }

  /** A line that opens a section has its offset recorded. */
  lemma {:induction false} OpenOffsetOf(lines: seq<string>, levels: seq<int>, j: int)
    requires 0 <= j < |lines| && Opens(lines[j], levels)
    ensures |Terminated(lines[..j])| in OpenOffsets(lines, levels)
    decreases |lines|
  {
    var n := |lines| - 1;
    var front := lines[..n];
    var tail := if Opens(lines[n], levels) then [|Terminated(front)|] else [];
    assert OpenOffsets(lines, levels) == OpenOffsets(front, levels) + tail;
    if j < n {
      assert front[..j] == lines[..j] && front[j] == lines[j];
      OpenOffsetOf(front, levels, j);
    }
  }

  /** Every recorded offset is where a line that opens a section begins. */
  lemma {:induction false} OffsetOpens(lines: seq<string>, levels: seq<int>, o: int) returns (j: int)
    requires o in OpenOffsets(lines, levels)
    ensures 0 <= j < |lines| && Opens(lines[j], levels) && o == |Terminated(lines[..j])|
    decreases |lines|
  {
    var n := |lines| - 1;
    var front := lines[..n];
    var tail := if Opens(lines[n], levels) then [|Terminated(front)|] else [];
    assert OpenOffsets(lines, levels) == OpenOffsets(front, levels) + tail;
    if o in OpenOffsets(front, levels) {
      j := OffsetOpens(front, levels, o);
      assert front[..j] == lines[..j] && front[j] == lines[j];
    } else {
      assert o in tail;
      j := n;
    }
  }

  /** `o` is recorded exactly when it is where a line that opens a section begins. */
  lemma OpenOffsetsIff(lines: seq<string>, levels: seq<int>, o: int)
    ensures o in OpenOffsets(lines, levels) <==>
              exists j :: 0 <= j < |lines| && Opens(lines[j], levels) && o == |Terminated(lines[..j])|
  {
    if o in OpenOffsets(lines, levels) {
      var j := OffsetOpens(lines, levels, o);
    }
    forall j | 0 <= j < |lines| && Opens(lines[j], levels) && o == |Terminated(lines[..j])|
      ensures o in OpenOffsets(lines, levels)
    {
      OpenOffsetOf(lines, levels, j);
    }
  }

  /** The text up to its first newline. */
  function FirstLine(t: string): string {
    var i := FindFrom(t, "\n", 0);
    if i == -1 then t else t[..i]
  }

  predicate NoNewline(line: string) {
    forall j :: 0 <= j < |line| ==> line[j] != '\n'
  }

  /** The lines `split` gives hold no newline. */
  lemma SplitLines(text: string)
    ensures forall k :: 0 <= k < |Split(text, "\n")| ==> NoNewline(Split(text, "\n")[k])
  {
    var lines := Split(text, "\n");
    SplitPartsFree(text, "\n");
    forall k, j | 0 <= k < |lines| && 0 <= j < |lines[k]| ensures lines[k][j] != '\n' {
      if lines[k][j] == '\n' {
        assert OccursAt(lines[k], "\n", j);
        ContainsAt(lines[k], "\n", j);
      }
    }
  }

  /** A line without a newline, followed by one, is the first line. */
  lemma FirstLineOf(line: string, more: string)
    requires NoNewline(line)
    ensures FirstLine(line + "\n" + more) == line
  {
    var t := line + "\n" + more;
    assert OccursAt(t, "\n", |line|);
    forall j | 0 <= j < |line| ensures !OccursAt(t, "\n", j) {
      assert t[j..j + 1] == [line[j]];
    }
    var i := FindFrom(t, "\n", 0);
    assert i == |line|;
    assert t[..i] == line;
  }

  /**
   * What `_parse_headings` keeps of a section of `full` (the text plus a final
   * newline): a non-blank slice of `full`; the preamble starts at 0 with no
   * heading; any other section opens with a heading line of a wanted level
   * whose level and title it records.
   */
  ghost predicate Kept(full: string, levels: seq<int>, s: Section) {
    && 0 <= s.start <= s.end <= |full| && s.text == full[s.start..s.end] && !AllSpace(s.text)
    && (s.level == 0 ==> s.start == 0 && s.heading == "")
    && (s.level != 0 ==> s.level in levels && MatchHeading(FirstLine(s.text)) == Some(Heading(s.level, s.heading)))
  }

  ghost predicate AllKept(full: string, levels: seq<int>, sections: seq<Section>) {
    forall k :: 0 <= k < |sections| ==> Kept(full, levels, sections[k])
  }

  /**
   * Each section ends where the next begins, and only the first can be the
   * preamble (stated for the last two and, recursively, for the rest).
   */
  ghost predicate Contiguous(sections: seq<Section>)
    decreases |sections|
  {
    |sections| >= 2 ==>
      && Contiguous(sections[..|sections| - 1])
      && sections[|sections| - 2].end == sections[|sections| - 1].start && sections[|sections| - 1].level != 0
  }

  /** Contiguity of any two neighbours. */
  lemma {:induction false} ContiguousAt(sections: seq<Section>, k: int)
    requires Contiguous(sections) && 0 < k < |sections|
    ensures sections[k - 1].end == sections[k].start && sections[k].level != 0
    decreases |sections|
  {
    if k < |sections| - 1 {
      var front := sections[..|sections| - 1];
      ContiguousAt(front, k);
      assert front[k - 1] == sections[k - 1] && front[k] == sections[k];
    }
  }

  /** The section being filled: its text runs up to `pos`, and a heading section starts with its heading line `head`. */
  ghost predicate Open(full: string, levels: seq<int>, current: Section, head: string, pos: int) {
    && 0 <= current.start <= pos <= |full| && current.text == full[current.start..pos]
    && (current.level == 0 ==> current.start == 0 && current.heading == "")
    && (current.level != 0 ==>
          && current.level in levels && NoNewline(head)
          && MatchHeading(head) == Some(Heading(current.level, current.heading))
          && |head| + 1 <= |current.text| && current.text[..|head| + 1] == head + "\n")
  }

  /** The sections closed so far, the section still open, and what lies before the first of them. */
  ghost predicate Parsed(full: string, levels: seq<int>, sections: seq<Section>, current: Section, head: string, pos: int) {
    && AllKept(full, levels, sections) && Contiguous(sections)
    && Open(full, levels, current, head, pos) && Before(full, sections, current)
  }

  /** Only whitespace comes before the first section; the open one follows the closed ones. */
  ghost predicate Before(full: string, sections: seq<Section>, current: Section) {
    && 0 <= current.start <= |full|
    && (sections == [] ==> AllSpace(full[..current.start]))
    && (sections != [] ==> && current.level != 0 && sections[|sections| - 1].end == current.start
                           && 0 <= sections[0].start <= |full| && AllSpace(full[..sections[0].start]))
  }

  lemma BeforeSame(full: string, sections: seq<Section>, current: Section, current': Section)
    requires Before(full, sections, current) && current'.start == current.start && current'.level == current.level
    ensures Before(full, sections, current')
  {
  }

  /** An open heading section is never blank: its text starts with `#`. */
  lemma OpenNotBlank(full: string, levels: seq<int>, current: Section, head: string, pos: int)
    requires Open(full, levels, current, head, pos) && current.level != 0
    ensures !AllSpace(current.text)
  {
    HeadingNotBlank(head);
    assert current.text[0] == (head + "\n")[0] == '#';
  }

  /** Closing the open section at `pos` keeps it, with the right first line. */
  lemma CloseKept(full: string, levels: seq<int>, current: Section, head: string, pos: int)
    requires Open(full, levels, current, head, pos) && !AllSpace(current.text)
    ensures Kept(full, levels, current.(end := pos))
  {
    if current.level != 0 {
      var more := current.text[|head| + 1..];
      assert current.text == head + "\n" + more;
      FirstLineOf(head, more);
    }
  }

  lemma KeptSnoc(full: string, levels: seq<int>, sections: seq<Section>, s: Section)
    requires AllKept(full, levels, sections) && Kept(full, levels, s)
    ensures AllKept(full, levels, sections + [s])
  {
    var next := sections + [s];
    forall k | 0 <= k < |next| ensures Kept(full, levels, next[k]) {
      if k < |sections| {
        assert next[k] == sections[k];
      } else {
        assert next[k] == s;
      }
    }
  }

  lemma ContiguousSnoc(sections: seq<Section>, s: Section)
    requires Contiguous(sections) && (sections != [] ==> sections[|sections| - 1].end == s.start && s.level != 0)
    ensures Contiguous(sections + [s])
  {
    assert (sections + [s])[..|sections|] == sections;
  }

  lemma HeadingCountSnoc(sections: seq<Section>, s: Section)
    requires sections != [] ==> s.level != 0
    ensures HeadingCount(sections + [s]) == HeadingCount(sections) + (if s.level != 0 then 1 else 0)
  {
    if sections != [] {
      assert (sections + [s])[0] == sections[0];
    }
  }

  /** Closing the open section at `pos`: kept in order after the others. */
  lemma CloseStep(full: string, levels: seq<int>, sections: seq<Section>, current: Section, head: string, pos: int)
    requires Parsed(full, levels, sections, current, head, pos) && !AllSpace(current.text)
    ensures AllKept(full, levels, sections + [current.(end := pos)]) && Contiguous(sections + [current.(end := pos)])
    ensures HeadingCount(sections + [current.(end := pos)]) == HeadingCount(sections) + (if current.level != 0 then 1 else 0)
    ensures AllSpace(full[..(sections + [current.(end := pos)])[0].start])
  {
    CloseKept(full, levels, current, head, pos);
    KeptSnoc(full, levels, sections, current.(end := pos));
    ContiguousSnoc(sections, current.(end := pos));
    HeadingCountSnoc(sections, current.(end := pos));
  }

  /** The line at `pos`, and where the rest of the lines begin. */
  lemma LineAt(full: string, lines: seq<string>, i: int, pos: int)
    requires 0 <= i < |lines| && 0 <= pos <= |full| && full[pos..] == Terminated(lines[i..])
    ensures pos + |lines[i]| + 1 <= |full|
    ensures full[pos..pos + |lines[i]| + 1] == lines[i] + "\n"
    ensures full[pos + |lines[i]| + 1..] == Terminated(lines[i + 1..])
  {
    assert lines[i..][1..] == lines[i + 1..];
    assert Terminated(lines[i..]) == lines[i] + "\n" + Terminated(lines[i + 1..]);
    assert full[pos..][..|lines[i]| + 1] == full[pos..pos + |lines[i]| + 1];
    assert full[pos..][|lines[i]| + 1..] == full[pos + |lines[i]| + 1..];
  }

  lemma OpenCountSnoc(lines: seq<string>, levels: seq<int>, i: int)
    requires 0 <= i < |lines|
    ensures OpenCount(lines[..i + 1], levels) == OpenCount(lines[..i], levels) + (if Opens(lines[i], levels) then 1 else 0)
  {
    assert lines[..i + 1][..i] == lines[..i];
  }

  /** A heading line of a wanted level: the open section is closed (kept when not blank) and a new one opens. */
  lemma OpenStep(full: string, levels: seq<int>, sections: seq<Section>, current: Section, head: string, pos: int,
                 line: string, h: Heading, next: seq<Section>, started: Section)
    requires Parsed(full, levels, sections, current, head, pos)
    requires pos + |line| + 1 <= |full| && full[pos..pos + |line| + 1] == line + "\n"
    requires MatchHeading(line) == Some(h) && h.level in levels && NoNewline(line)
    requires next == Closed(sections, current, pos)
    requires started == Section(h.title, h.level, line + "\n", pos, 0)
    ensures Parsed(full, levels, next, started, line, pos + |line| + 1)
    ensures HeadingCount(next) == HeadingCount(sections) + (if current.level != 0 then 1 else 0)
  {
    if !AllSpace(current.text) {
      CloseStep(full, levels, sections, current, head, pos);
    } else {
      BlankPreamble(full, levels, sections, current, head, pos);
    }
    StartOpen(full, levels, pos, line, h, started);
  }

  /** A blank open section is the preamble, with nothing closed before it. */
  lemma BlankPreamble(full: string, levels: seq<int>, sections: seq<Section>, current: Section, head: string, pos: int)
    requires Parsed(full, levels, sections, current, head, pos) && AllSpace(current.text)
    ensures sections == [] && current.level == 0 && AllSpace(full[..pos])
  {
    if current.level != 0 {
      OpenNotBlank(full, levels, current, head, pos);
    } else {
      assert full[..pos] == current.text;
    }
  }

  /** The section a heading line opens starts with that line. */
  lemma StartOpen(full: string, levels: seq<int>, pos: int, line: string, h: Heading, started: Section)
    requires 0 <= pos && pos + |line| + 1 <= |full| && full[pos..pos + |line| + 1] == line + "\n"
    requires MatchHeading(line) == Some(h) && h.level in levels && NoNewline(line)
    requires started == Section(h.title, h.level, line + "\n", pos, 0)
    ensures Open(full, levels, started, line, pos + |line| + 1)
  {
    assert (line + "\n")[..|line| + 1] == line + "\n";
  }

  /** Any other line: it joins the open section. */
  lemma GrowStep(full: string, levels: seq<int>, sections: seq<Section>, current: Section, head: string, pos: int,
                 line: string)
    requires Parsed(full, levels, sections, current, head, pos)
    requires pos + |line| + 1 <= |full| && full[pos..pos + |line| + 1] == line + "\n"
    ensures Parsed(full, levels, sections, current.(text := current.text + (line + "\n")), head, pos + |line| + 1)
  {
    var grown := current.(text := current.text + (line + "\n"));
    OpenGrow(full, levels, current, head, pos, line);
    BeforeSame(full, sections, current, grown);
  }

  lemma OpenGrow(full: string, levels: seq<int>, current: Section, head: string, pos: int, line: string)
    requires Open(full, levels, current, head, pos)
    requires pos + |line| + 1 <= |full| && full[pos..pos + |line| + 1] == line + "\n"
    ensures Open(full, levels, current.(text := current.text + (line + "\n")), head, pos + |line| + 1)
  {
    var grown := current.text + (line + "\n");
    assert grown == full[current.start..pos + |line| + 1];
    if current.level != 0 {
      assert grown[..|head| + 1] == current.text[..|head| + 1];
    }
  }

  /** The closed sections once `current` ends at `pos`: kept only when not blank. */
  function Closed(sections: seq<Section>, current: Section, pos: int): seq<Section> {
    if !AllSpace(current.text) then sections + [current.(end := pos)] else sections
  }

  /** The loop state after the first `i` lines, which start at offset 0 of `full` and end at `pos`. */
  ghost predicate Scanned(full: string, lines: seq<string>, levels: seq<int>, i: int,
                          sections: seq<Section>, current: Section, head: string, pos: int) {
    Lined(full, lines, levels, i, sections, current, head, pos) && Starts(lines, levels, i, sections, current, pos)
  }

  /** The rest of the lines follow `pos`, the sections so far are parsed, and as many open at a heading as lines before `i` do. */
  ghost predicate Lined(full: string, lines: seq<string>, levels: seq<int>, i: int,
                        sections: seq<Section>, current: Section, head: string, pos: int) {
    && 0 <= i <= |lines| && 0 <= pos <= |full| && full[pos..] == Terminated(lines[i..])
    && Parsed(full, levels, sections, current, head, pos)
    && HeadingCount(sections) + (if current.level != 0 then 1 else 0) == OpenCount(lines[..i], levels)
  }

  /** The first `i` lines end at `pos`, and the heading sections so far start where those lines open one. */
  ghost predicate Starts(lines: seq<string>, levels: seq<int>, i: int, sections: seq<Section>, current: Section, pos: int) {
    && 0 <= i <= |lines| && pos == |Terminated(lines[..i])|
    && HeadingStarts(sections) + (if current.level != 0 then [current.start] else []) == OpenOffsets(lines[..i], levels)
  }

  lemma HeadingStartsSnoc(sections: seq<Section>, s: Section)
    ensures HeadingStarts(sections + [s]) == HeadingStarts(sections) + (if s.level != 0 then [s.start] else [])
  {
    assert (sections + [s])[..|sections|] == sections;
  }

  /** Line `i` ends `|line| + 1` characters on, and its offset is recorded when it opens a section. */
  lemma LinesSnoc(lines: seq<string>, levels: seq<int>, i: int)
    requires 0 <= i < |lines|
    ensures |Terminated(lines[..i + 1])| == |Terminated(lines[..i])| + |lines[i]| + 1
    ensures OpenOffsets(lines[..i + 1], levels)
            == OpenOffsets(lines[..i], levels) + (if Opens(lines[i], levels) then [|Terminated(lines[..i])|] else [])
  {
    assert lines[..i + 1] == lines[..i] + [lines[i]];
    assert lines[..i + 1][..i] == lines[..i];
    TerminatedSnoc(lines[..i], lines[i]);
  }

  /** A line that opens a section: the new section starts at the line's offset. */
  lemma StartsOpen(lines: seq<string>, levels: seq<int>, i: int, sections: seq<Section>, current: Section, pos: int,
                   started: Section, pos': int)
    requires Starts(lines, levels, i, sections, current, pos) && i < |lines| && Opens(lines[i], levels)
    requires AllSpace(current.text) ==> sections == [] && current.level == 0
    requires started.level != 0 && started.start == pos && pos' == pos + |lines[i]| + 1
    ensures Starts(lines, levels, i + 1, Closed(sections, current, pos), started, pos')
  {
    LinesSnoc(lines, levels, i);
    if !AllSpace(current.text) {
      HeadingStartsSnoc(sections, current.(end := pos));
    }
  }

  /** Any other line: nothing new starts. */
  lemma StartsGrow(lines: seq<string>, levels: seq<int>, i: int, sections: seq<Section>, current: Section, pos: int,
                   current': Section, pos': int)
    requires Starts(lines, levels, i, sections, current, pos) && i < |lines| && !Opens(lines[i], levels)
    requires current'.level == current.level && current'.start == current.start && pos' == pos + |lines[i]| + 1
    ensures Starts(lines, levels, i + 1, sections, current', pos')
  {
    LinesSnoc(lines, levels, i);
  }

  /**
   * One round of the loop of `_parse_headings`, over line `i`: a heading of a
   * wanted level closes the open section (kept only when not blank) and opens
   * its own; any other line joins the open section.
   */
  method Advance(ghost full: string, lines: seq<string>, levels: seq<int>, i: int,
                 sections: seq<Section>, current: Section, ghost head: string, pos: int)
    returns (sections': seq<Section>, current': Section, ghost head': string, pos': int)
    requires Scanned(full, lines, levels, i, sections, current, head, pos) && i < |lines| && NoNewline(lines[i])
    ensures Scanned(full, lines, levels, i + 1, sections', current', head', pos')
    ensures pos' == pos + |lines[i]| + 1
    ensures Opens(lines[i], levels) ==>
              && sections' == Closed(sections, current, pos)
              && current' == Section(MatchHeading(lines[i]).value.title, MatchHeading(lines[i]).value.level,
                                     lines[i] + "\n", pos, 0)
    ensures !Opens(lines[i], levels) ==>
              sections' == sections && current' == current.(text := current.text + (lines[i] + "\n"))
  {
    var line := lines[i];
    var m := MatchHeading(line);
    if m.Some? && m.value.level in levels {
      sections' := sections;
      if !AllSpace(current.text) {  // `text.strip()` is not empty
        sections' := sections + [current.(end := pos)];
      }
      current', head' := Section(m.value.title, m.value.level, line + "\n", pos, 0), line;
    } else {
      sections', current', head' := sections, current.(text := current.text + (line + "\n")), head;
    }
    pos' := pos + |line| + 1;
    if m.Some? && m.value.level in levels {
      OpenRound(full, lines, levels, i, sections, current, head, pos, m.value, sections', current', pos');
      OpenStarts(full, lines, levels, i, sections, current, head, pos, current', pos');
    } else {
      GrowRound(full, lines, levels, i, sections, current, head, pos, current', pos');
      StartsGrow(lines, levels, i, sections, current, pos, current', pos');
    }
  }

  /** A heading line of a wanted level at line `i`: the next state is again a scanned one. */
  lemma OpenRound(full: string, lines: seq<string>, levels: seq<int>, i: int,
                  sections: seq<Section>, current: Section, head: string, pos: int,
                  h: Heading, sections': seq<Section>, current': Section, pos': int)
    requires Lined(full, lines, levels, i, sections, current, head, pos) && i < |lines| && NoNewline(lines[i])
    requires MatchHeading(lines[i]) == Some(h) && h.level in levels
    requires sections' == Closed(sections, current, pos)
    requires current' == Section(h.title, h.level, lines[i] + "\n", pos, 0)
    requires pos' == pos + |lines[i]| + 1
    ensures Lined(full, lines, levels, i + 1, sections', current', lines[i], pos')
  {
    LineAt(full, lines, i, pos);
    OpenCountSnoc(lines, levels, i);
    OpenStep(full, levels, sections, current, head, pos, lines[i], h, sections', current');
  }

  /** A heading line of a wanted level at line `i`: its section starts at the line's offset. */
  lemma OpenStarts(full: string, lines: seq<string>, levels: seq<int>, i: int,
                   sections: seq<Section>, current: Section, head: string, pos: int, current': Section, pos': int)
    requires Parsed(full, levels, sections, current, head, pos) && Starts(lines, levels, i, sections, current, pos)
    requires i < |lines| && Opens(lines[i], levels)
    requires current'.level != 0 && current'.start == pos && pos' == pos + |lines[i]| + 1
    ensures Starts(lines, levels, i + 1, Closed(sections, current, pos), current', pos')
  {
    if AllSpace(current.text) {
      BlankPreamble(full, levels, sections, current, head, pos);
    }
    StartsOpen(lines, levels, i, sections, current, pos, current', pos');
  }

  /** Any other line at line `i`: the next state is again a scanned one. */
  lemma GrowRound(full: string, lines: seq<string>, levels: seq<int>, i: int,
                  sections: seq<Section>, current: Section, head: string, pos: int,
                  current': Section, pos': int)
    requires Lined(full, lines, levels, i, sections, current, head, pos) && i < |lines|
    requires !Opens(lines[i], levels)
    requires current' == current.(text := current.text + (lines[i] + "\n")) && pos' == pos + |lines[i]| + 1
    ensures Lined(full, lines, levels, i + 1, sections, current', head, pos')
  {
    LineAt(full, lines, i, pos);
    OpenCountSnoc(lines, levels, i);
    GrowStep(full, levels, sections, current, head, pos, lines[i]);
  }

  /** Before the first line: nothing closed, an empty preamble open at offset 0. */
  lemma ScanStart(text: string, levels: seq<int>)
    ensures Scanned(text + "\n", Split(text, "\n"), levels, 0, [], Section("", 0, "", 0, 0), "", 0)
  {
    var lines := Split(text, "\n");
    TerminatedSplit(text);
    assert lines[0..] == lines && lines[..0] == [];
    assert (text + "\n")[0..] == text + "\n";
  }

  /** After the last line: closing the open section, unless it is blank, gives the sections of the text. */
  lemma ScanEnd(text: string, levels: seq<int>, sections: seq<Section>, current: Section, head: string, pos: int)
    requires Scanned(text + "\n", Split(text, "\n"), levels, |Split(text, "\n")|, sections, current, head, pos)
    ensures var r := Closed(sections, current, pos);
            && AllKept(text + "\n", levels, r) && Contiguous(r)
            && (r == [] ==> AllSpace(text))
            && (r != [] ==> AllSpace((text + "\n")[..r[0].start]) && r[|r| - 1].end == |text| + 1)
            && HeadingCount(r) == OpenCount(Split(text, "\n"), levels)
            && HeadingStarts(r) == OpenOffsets(Split(text, "\n"), levels)
  {
    var lines := Split(text, "\n");
    LinedEnd(text + "\n", lines, levels, sections, current, head, pos);
    ScanEndKept(text, levels, sections, current, head, pos);
    ScanEndStarts(lines, levels, sections, current, pos);
  }

  /** The closing step for everything but the start offsets. */
  lemma ScanEndKept(text: string, levels: seq<int>, sections: seq<Section>, current: Section, head: string, pos: int)
    requires Parsed(text + "\n", levels, sections, current, head, pos) && pos == |text| + 1
    ensures var r := Closed(sections, current, pos);
            && AllKept(text + "\n", levels, r) && Contiguous(r)
            && (r == [] ==> AllSpace(text))
            && (r != [] ==> AllSpace((text + "\n")[..r[0].start]) && r[|r| - 1].end == |text| + 1)
            && HeadingCount(r) == HeadingCount(sections) + (if current.level != 0 then 1 else 0)
    ensures AllSpace(current.text) ==> current.level == 0
  {
    if !AllSpace(current.text) {
      FinishKept(text, levels, sections, current, head);
    } else {
      FinishBlank(text, levels, sections, current, head);
    }
  }

  /** After the last line the whole text is consumed, and the heading count is that of all lines. */
  lemma LinedEnd(full: string, lines: seq<string>, levels: seq<int>, sections: seq<Section>, current: Section, head: string, pos: int)
    requires Lined(full, lines, levels, |lines|, sections, current, head, pos)
    ensures pos == |full| && Parsed(full, levels, sections, current, head, pos)
    ensures HeadingCount(sections) + (if current.level != 0 then 1 else 0) == OpenCount(lines, levels)
  {
    assert lines[..|lines|] == lines;
  }

  /** The closing step for the start offsets: a blank open section is never a heading section. */
  lemma ScanEndStarts(lines: seq<string>, levels: seq<int>, sections: seq<Section>, current: Section, pos: int)
    requires Starts(lines, levels, |lines|, sections, current, pos)
    requires AllSpace(current.text) ==> current.level == 0
    ensures HeadingStarts(Closed(sections, current, pos)) == OpenOffsets(lines, levels)
  {
    assert lines[..|lines|] == lines;
    if !AllSpace(current.text) {
      HeadingStartsSnoc(sections, current.(end := pos));
    }
  }

  /**
   * `_parse_headings(text)`: the sections of `text`. Each is a non-blank
   * slice of the text with a final newline, contiguous with the next; only
   * the first can be the preamble, and only whitespace comes before the first.
   * Every other section opens with a heading line of a wanted level, and
   * those sections start exactly where such lines begin, in order
   * (`OpenOffsetsIff`, `LineOffset`). A text with no sections is blank.
   */
  method ParseHeadings(text: string, levels: seq<int>) returns (sections: seq<Section>)
    ensures AllKept(text + "\n", levels, sections) && Contiguous(sections)
    ensures sections == [] ==> AllSpace(text)
    ensures sections != [] ==> && AllSpace((text + "\n")[..sections[0].start])
                               && sections[|sections| - 1].end == |text| + 1
    ensures HeadingCount(sections) == OpenCount(Split(text, "\n"), levels)
    ensures HeadingStarts(sections) == OpenOffsets(Split(text, "\n"), levels)
  {
    var lines := Split(text, "\n");
    var current, pos;
    ghost var head;
    sections, current, head, pos := ScanLines(text, lines, levels);
    ScanEnd(text, levels, sections, current, head, pos);
    if !AllSpace(current.text) {  // the last section, unless blank
      sections := sections + [current.(end := pos)];
    }
  }

  /** The loop of `_parse_headings` over every line of `text`. */
  method ScanLines(text: string, lines: seq<string>, levels: seq<int>)
    returns (sections: seq<Section>, current: Section, ghost head: string, pos: int)
    requires lines == Split(text, "\n")
    ensures Scanned(text + "\n", lines, levels, |lines|, sections, current, head, pos)
  {
    ghost var full := text + "\n";
    SplitLines(text);
    sections, current, head, pos := [], Section("", 0, "", 0, 0), "", 0;
    ScanStart(text, levels);
    for i := 0 to |lines|
      invariant Scanned(full, lines, levels, i, sections, current, head, pos)
    {
      sections, current, head, pos := Advance(full, lines, levels, i, sections, current, head, pos);
    }
  }

  /** After the last line, a non-blank open section is closed and kept. */
  lemma FinishKept(text: string, levels: seq<int>, sections: seq<Section>, current: Section, head: string)
    requires Parsed(text + "\n", levels, sections, current, head, |text| + 1) && !AllSpace(current.text)
    ensures var r := sections + [current.(end := |text| + 1)];
            && AllKept(text + "\n", levels, r) && Contiguous(r)
            && AllSpace((text + "\n")[..r[0].start]) && r[|r| - 1].end == |text| + 1
            && HeadingCount(r) == HeadingCount(sections) + (if current.level != 0 then 1 else 0)
  {
    CloseStep(text + "\n", levels, sections, current, head, |text| + 1);
  }

  /** After the last line, a blank open section is the preamble, and then nothing was kept. */
  lemma FinishBlank(text: string, levels: seq<int>, sections: seq<Section>, current: Section, head: string)
    requires Parsed(text + "\n", levels, sections, current, head, |text| + 1) && AllSpace(current.text)
    ensures sections == [] && current.level == 0 && AllSpace(text)
  {
    var full := text + "\n";
    if current.level != 0 {
      OpenNotBlank(full, levels, current, head, |text| + 1);
    }
    assert current.text == full;
    assert forall j :: 0 <= j < |text| ==> text[j] == full[j];
  }
}
