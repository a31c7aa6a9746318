/**
 * The CLAUDE.md knowledge-base parser: the document is cut into sections at
 * every `## ` heading, sections can be looked up by a case-insensitive part of
 * their name, the project overview section yields `- **key**: value` items,
 * and a search returns the matching paragraphs, most occurrences first.
 *
 * Sections are kept as a list of (name, body) pairs in the insertion order of
 * the dictionary the parser builds; a repeated name keeps its first position
 * and takes the last body, as a dictionary assignment does.
 */
module ClaudeMd {
  import opened Wrappers
  import opened Text
  import Ranking

  type Entries = seq<(string, string)>

  // ---------------------------------------------------------------------------
  // Section names
  // ---------------------------------------------------------------------------

  /**
   * A character of the regular-expression class `\w`: ASCII letters, digits
   * and `_`, and the non-ASCII characters outside whitespace and the
   * punctuation and symbol blocks of `NonWordCode`.
   */
  predicate IsWordChar(c: char) {
    ('a' <= c <= 'z') || ('A' <= c <= 'Z') || ('0' <= c <= '9') || c == '_'
    || (c as int >= 128 && !IsSpace(c) && !NonWordCode(c as int))
  }

  /**
   * Non-ASCII code points that are neither letters nor digits: the Latin-1
   * controls, signs and punctuation (but not the ordinal indicators, the
   * micro sign, the superscript digits and the vulgar fractions), the
   * multiplication and division signs, general punctuation, arrows,
   * mathematical and technical symbols, box drawing, shapes, dingbats
   * (but not the circled digits), CJK and full-width punctuation,
   * variation selectors, and the emoji and pictograph blocks.
   */
  predicate NonWordCode(n: int) {
    (0x80 <= n <= 0xBF && n != 0xAA && n != 0xB2 && n != 0xB3 && n != 0xB5 && n != 0xB9
                       && n != 0xBA && !(0xBC <= n <= 0xBE))
    || n == 0xD7 || n == 0xF7
    || 0x2000 <= n <= 0x206F || 0x2190 <= n <= 0x23FF
    || 0x2500 <= n <= 0x2775 || 0x2794 <= n <= 0x27BF
    || 0x3000 <= n <= 0x3004 || 0x3008 <= n <= 0x3020 || n == 0x3030 || 0x303D <= n <= 0x303F
    || 0xFE00 <= n <= 0xFE0F
    || 0xFF01 <= n <= 0xFF0F || 0xFF1A <= n <= 0xFF20 || 0xFF3B <= n <= 0xFF40 || 0xFF5B <= n <= 0xFF65
    || 0x1F300 <= n <= 0x1FAFF
  }

  /** The characters a section name keeps: `[\w\s\-\(\)]`. */
  predicate IsNameChar(c: char) {
    IsWordChar(c) || IsSpace(c) || c == '-' || c == '(' || c == ')'
  }

  /** `re.sub(r'[^\w\s\-\(\)]', '', s)`. */
  function KeepNameChars(s: string): (r: string)
    ensures |r| <= |s|
    ensures forall i :: 0 <= i < |r| ==> IsNameChar(r[i])
    ensures forall c :: c in r <==> c in s && IsNameChar(c)
    ensures (forall i :: 0 <= i < |s| ==> IsNameChar(s[i])) ==> r == s
  {
    if s == [] then []
    else (if IsNameChar(s[0]) then [s[0]] else []) + KeepNameChars(s[1..])
  }

  /** The substitution works character by character, so it distributes over concatenation. */
  lemma {:induction false} KeepNameCharsConcat(a: string, b: string)
    ensures KeepNameChars(a + b) == KeepNameChars(a) + KeepNameChars(b)
    decreases |a|
  {
    if a == [] {
      assert a + b == b;
    } else {
      assert (a + b)[0] == a[0];
      assert (a + b)[1..] == a[1..] + b;
      KeepNameCharsConcat(a[1..], b);
    }
  }

  /** A heading line opens a section. */
  predicate IsHeading(line: string) {
    StartsWith(line, "## ")
  }

  /** The section name a heading line gives. */
  function SectionName(line: string): string
    requires IsHeading(line)
  {
    Strip(KeepNameChars(Strip(line[3..])))
  }

  /** A section name: free of surrounding whitespace and made of name characters only. */
  predicate IsCleanName(name: string) {
    (name != [] ==> !IsSpace(name[0]) && !IsSpace(name[|name| - 1]))
    && forall i :: 0 <= i < |name| ==> IsNameChar(name[i])
  }

  /**
   * A section name is clean, and is the heading text after `## ` with the
   * other characters removed and then stripped: the first `strip()` changes
   * nothing the second does not.
   */
  lemma SectionNameClean(line: string)
    requires IsHeading(line)
    ensures IsCleanName(SectionName(line))
    ensures SectionName(line) == Strip(KeepNameChars(line[3..]))
  {
    NameCharsStrip(KeepNameChars(Strip(line[3..])));
    StripFirstRedundant(line[3..]);
  }

  lemma StripFirstRedundant(rest: string)
    ensures Strip(KeepNameChars(Strip(rest))) == Strip(KeepNameChars(rest))
  {
    var lead, mid, trail := StripParts(rest);
    KeptPadded(lead, mid, trail);
    StripPadded(lead, KeepNameChars(mid), trail);
  }

  /** Whitespace is kept, so the padding of a string survives the substitution. */
  lemma KeptPadded(lead: string, mid: string, trail: string)
    requires AllSpace(lead) && AllSpace(trail)
    ensures KeepNameChars(lead + mid + trail) == lead + KeepNameChars(mid) + trail
  {
    KeepNameCharsConcat(lead + mid, trail);
    KeepNameCharsConcat(lead, mid);
  }

  /** A clean name written as a heading reads back as the same name. */
  lemma SectionNameRoundTrip(name: string)
    requires IsCleanName(name)
    ensures SectionName("## " + name) == name
  {
    var line := "## " + name;
    assert IsHeading(line);
    assert line[3..] == name;
    StripUnique(name, [], name, []);
    assert [] + name + [] == name;
  }

  lemma NameCharsStrip(kept: string)
    requires forall i :: 0 <= i < |kept| ==> IsNameChar(kept[i])
    ensures forall j :: 0 <= j < |Strip(kept)| ==> IsNameChar(Strip(kept)[j])
  {
    var name := Strip(kept);
    var i :| OccursAt(kept, name, i);
    forall j | 0 <= j < |name| ensures IsNameChar(name[j]) {
      assert name[j] == kept[i + j];
    }
  }

  /** A body as `strip()` leaves it. */
  predicate IsStripped(s: string) {
    s != [] ==> !IsSpace(s[0]) && !IsSpace(s[|s| - 1])
  }

  // ---------------------------------------------------------------------------
  // The section dictionary
  // ---------------------------------------------------------------------------

  /** The names of some entries. */
  function Keys(entries: Entries): set<string>
    decreases |entries|
  {
    if entries == [] then {} else {entries[0].0} + Keys(entries[1..])
  }

  lemma {:induction false} KeysIff(entries: Entries, k: string)
    ensures k in Keys(entries) <==> exists i :: 0 <= i < |entries| && entries[i].0 == k
    decreases |entries|
  {
    if entries != [] {
      KeysIff(entries[1..], k);
      assert forall i :: 0 < i < |entries| ==> entries[i] == entries[1..][i - 1];
      if exists i :: 0 <= i < |entries| && entries[i].0 == k {
        var i :| 0 <= i < |entries| && entries[i].0 == k;
        if i > 0 { assert entries[1..][i - 1].0 == k; }
      }
    }
  }

  predicate DistinctKeys(entries: Entries) {
    forall i, j :: 0 <= i < j < |entries| ==> entries[i].0 != entries[j].0
  }

  /** `sections[k] = v`: replace the body of an existing name in place, or append. */
  function Put(entries: Entries, k: string, v: string): (r: Entries)
    ensures Keys(r) == Keys(entries) + {k}
    ensures (k, v) in r
    ensures forall e :: e in r ==> e == (k, v) || e in entries
    decreases |entries|
  {
    if entries == [] then [(k, v)]
    else if entries[0].0 == k then
      var r := [(k, v)] + entries[1..];
      assert r[1..] == entries[1..];
      r
    else
      var r := [entries[0]] + Put(entries[1..], k, v);
      assert r[1..] == Put(entries[1..], k, v);
      r
  }

  /** Storing a name keeps the names distinct. */
  lemma {:induction false} PutDistinct(entries: Entries, k: string, v: string)
    requires DistinctKeys(entries)
    ensures DistinctKeys(Put(entries, k, v))
    decreases |entries|
  {
    if entries != [] && entries[0].0 != k {
      var tail := entries[1..];
      PutDistinct(tail, k, v);
      var rest := Put(tail, k, v);
      var r := Put(entries, k, v);
      assert r == [entries[0]] + rest;
      KeysIff(tail, entries[0].0);
      assert entries[0].0 !in Keys(tail) by {
        forall i | 0 <= i < |tail| ensures tail[i].0 != entries[0].0 {
          assert tail[i] == entries[i + 1];
        }
      }
      assert entries[0].0 !in Keys(rest);
      KeysIff(rest, entries[0].0);
      forall i, j | 0 <= i < j < |r| ensures r[i].0 != r[j].0 {
        if i > 0 {
          assert r[i] == rest[i - 1] && r[j] == rest[j - 1];
        } else {
          assert r[j] == rest[j - 1];
        }
      }
    } else if entries != [] {
      var r := Put(entries, k, v);
      forall i, j | 0 <= i < j < |r| ensures r[i].0 != r[j].0 {
        assert r[i].0 == entries[i].0 && r[j].0 == entries[j].0;
      }
    }
  }

  // ---------------------------------------------------------------------------
  // Parsing: one fold over the lines
  // ---------------------------------------------------------------------------

  /**
   * The parser's variables: the sections stored so far, the open section's
   * name (empty when none is open, the same as None for the parser's truth
   * test) and the lines collected for it.
   */
  datatype ParseState = ParseState(sections: Entries, current: string, body: seq<string>)

  const Start := ParseState([], "", [])

  /** The sections with the open section stored, if one is open. */
  function Close(st: ParseState): Entries {
    if st.current != "" then Put(st.sections, st.current, Strip(Join(st.body, "\n"))) else st.sections
  }

  /** One line of the parsing loop. */
  function Step(st: ParseState, line: string): ParseState {
    if IsHeading(line) then ParseState(Close(st), SectionName(line), [])
    else if st.current != "" then st.(body := st.body + [line])
    else st
  }

  function Fold(st: ParseState, lines: seq<string>): ParseState
    decreases |lines|
  {
    if lines == [] then st else Fold(Step(st, lines[0]), lines[1..])
  }

  /** `_parse_sections()` on the lines of the document. */
  function SectionsOf(lines: seq<string>): Entries {
    Close(Fold(Start, lines))
  }

  /** `_parse_sections()` on the document text. */
  function ParseSections(content: string): Entries {
    SectionsOf(Split(content, "\n"))
  }

  /** The parsing loop, line by line. */
  method ParseSectionsLoop(content: string) returns (sections: Entries)
    ensures sections == ParseSections(content)
  {
    var lines := Split(content, "\n");
    var current := "";
    var body: seq<string> := [];
    sections := [];
    var i := 0;
    while i < |lines|
      invariant 0 <= i <= |lines|
      invariant Fold(ParseState(sections, current, body), lines[i..]) == Fold(Start, lines)
    {
      var line := lines[i];
      assert lines[i..] == [line] + lines[i + 1..];
      if StartsWith(line, "## ") {
        if current != "" {
          sections := Put(sections, current, Strip(Join(body, "\n")));
        }
        current := Strip(KeepNameChars(Strip(line[3..])));
        body := [];
      } else if current != "" {
        body := body + [line];
      }
      i := i + 1;
    }
    if current != "" {
      sections := Put(sections, current, Strip(Join(body, "\n")));
    }
  }

  /** The name a line opens a section under, if it is a heading with a nonempty name. */
  function NameOf(line: string): Option<string> {
    if IsHeading(line) && SectionName(line) != "" then Some(SectionName(line)) else None
  }

  /** The values present in a sequence of options. */
  function Present<T>(opts: seq<Option<T>>): set<T>
    decreases |opts|
  {
    if opts == [] then {} else (if opts[0].Some? then {opts[0].value} else {}) + Present(opts[1..])
  }

  lemma {:induction false} PresentIff<T>(opts: seq<Option<T>>, x: T)
    ensures x in Present(opts) <==> exists i :: 0 <= i < |opts| && opts[i] == Some(x)
    decreases |opts|
  {
    if opts != [] {
      PresentIff(opts[1..], x);
      assert forall i :: 0 < i < |opts| ==> opts[i] == opts[1..][i - 1];
      if exists i :: 0 <= i < |opts| && opts[i] == Some(x) {
        var i :| 0 <= i < |opts| && opts[i] == Some(x);
        if i > 0 { assert opts[1..][i - 1] == Some(x); }
      }
    }
  }

  function NameOpts(lines: seq<string>): (opts: seq<Option<string>>)
    ensures |opts| == |lines| && forall i :: 0 <= i < |lines| ==> opts[i] == NameOf(lines[i])
  {
    seq(|lines|, i requires 0 <= i < |lines| => NameOf(lines[i]))
  }

  /** The nonempty names of the heading lines. */
  function HeadingNames(lines: seq<string>): set<string> {
    Present(NameOpts(lines))
  }

  /** A name is a heading name exactly when some line is a heading with that nonempty name. */
  lemma HeadingNamesIff(lines: seq<string>, name: string)
    ensures name in HeadingNames(lines) <==> exists i :: 0 <= i < |lines| && NameOf(lines[i]) == Some(name)
  {
    PresentIff(NameOpts(lines), name);
  }

  lemma HeadingNamesCons(lines: seq<string>)
    requires lines != []
    ensures HeadingNames(lines) == (if NameOf(lines[0]).Some? then {NameOf(lines[0]).value} else {}) + HeadingNames(lines[1..])
  {
    assert NameOpts(lines)[1..] == NameOpts(lines[1..]);
  }

  function Open(st: ParseState): set<string> {
    if st.current != "" then {st.current} else {}
  }

  lemma CloseKeys(st: ParseState)
    ensures Keys(Close(st)) == Keys(st.sections) + Open(st)
  {
  }

  lemma {:induction false} FoldKeys(st: ParseState, lines: seq<string>)
    ensures Keys(Close(Fold(st, lines))) == Keys(st.sections) + Open(st) + HeadingNames(lines)
    decreases |lines|
  {
    if lines == [] {
      CloseKeys(st);
    } else {
      var next := Step(st, lines[0]);
      FoldKeys(next, lines[1..]);
      HeadingNamesCons(lines);
      if IsHeading(lines[0]) {
        CloseKeys(st);
      }
    }
  }

  /** Every parser state the loop reaches: distinct clean names and stripped bodies. */
  predicate WellFormed(st: ParseState) {
    DistinctKeys(st.sections)
    && (forall e :: e in st.sections ==> e.0 != "" && IsCleanName(e.0) && IsStripped(e.1))
    && IsCleanName(st.current)
  }

  lemma CloseWellFormed(st: ParseState)
    requires WellFormed(st)
    ensures DistinctKeys(Close(st))
    ensures forall e :: e in Close(st) ==> e.0 != "" && IsCleanName(e.0) && IsStripped(e.1)
  {
    if st.current != "" {
      PutDistinct(st.sections, st.current, Strip(Join(st.body, "\n")));
    }
  }

  lemma StepWellFormed(st: ParseState, line: string)
    requires WellFormed(st)
    ensures WellFormed(Step(st, line))
  {
    if IsHeading(line) {
      CloseWellFormed(st);
      SectionNameClean(line);
    }
  }

  lemma {:induction false} FoldWellFormed(st: ParseState, lines: seq<string>)
    requires WellFormed(st)
    ensures WellFormed(Fold(st, lines))
    decreases |lines|
  {
    if lines != [] {
      StepWellFormed(st, lines[0]);
      FoldWellFormed(Step(st, lines[0]), lines[1..]);
    }
  }

  /** The parsed sections are named exactly by the nonempty names of the heading lines. */
  lemma SectionsNamed(lines: seq<string>)
    ensures Keys(SectionsOf(lines)) == HeadingNames(lines)
  {
    FoldKeys(Start, lines);
  }

  /** Each section name appears once, is clean and names a stripped body. */
  lemma SectionsWellFormed(lines: seq<string>)
    ensures DistinctKeys(SectionsOf(lines))
    ensures forall e :: e in SectionsOf(lines) ==> e.0 != "" && IsCleanName(e.0) && IsStripped(e.1)
  {
    FoldWellFormed(Start, lines);
    CloseWellFormed(Fold(Start, lines));
  }

  /** Lines before the first heading are dropped. */
  lemma {:induction false} PreambleDropped(preamble: seq<string>, rest: seq<string>)
    requires forall i :: 0 <= i < |preamble| ==> !IsHeading(preamble[i])
    ensures SectionsOf(preamble + rest) == SectionsOf(rest)
    decreases |preamble|
  {
    if preamble != [] {
      var all := preamble + rest;
      assert all[0] == preamble[0] && all[1..] == preamble[1..] + rest;
      assert Step(Start, preamble[0]) == Start;
      assert Fold(Start, all) == Fold(Start, preamble[1..] + rest);
      PreambleDropped(preamble[1..], rest);
    } else {
      assert preamble + rest == rest;
    }
  }

  lemma {:induction false} FoldBody(st: ParseState, body: seq<string>)
    requires st.current != ""
    requires forall i :: 0 <= i < |body| ==> !IsHeading(body[i])
    ensures Fold(st, body) == st.(body := st.body + body)
    decreases |body|
  {
    if body != [] {
      FoldBody(Step(st, body[0]), body[1..]);
      assert st.body + [body[0]] + body[1..] == st.body + body;
    }
  }

  /** A heading line followed by plain lines is one section holding the stripped text below it. */
  lemma OneSection(heading: string, body: seq<string>)
    requires IsHeading(heading) && SectionName(heading) != ""
    requires forall i :: 0 <= i < |body| ==> !IsHeading(body[i])
    ensures SectionsOf([heading] + body) == [(SectionName(heading), Strip(Join(body, "\n")))]
  {
    HeadingThenBody(heading, body);
    CloseOne(SectionName(heading), body);
  }

  lemma CloseOne(name: string, body: seq<string>)
    requires name != ""
    ensures Close(ParseState([], name, body)) == [(name, Strip(Join(body, "\n")))]
  {
  }

  lemma HeadingThenBody(heading: string, body: seq<string>)
    requires IsHeading(heading) && SectionName(heading) != ""
    requires forall i :: 0 <= i < |body| ==> !IsHeading(body[i])
    ensures Fold(Start, [heading] + body) == ParseState([], SectionName(heading), body)
  {
    var started := ParseState([], SectionName(heading), []);
    FoldCons(Start, heading, body);
    OpenFirst(heading);
    FoldBody(started, body);
    assert [] + body == body;
  }

  lemma FoldCons(st: ParseState, line: string, rest: seq<string>)
    ensures Fold(st, [line] + rest) == Fold(Step(st, line), rest)
  {
    assert ([line] + rest)[0] == line && ([line] + rest)[1..] == rest;
  }

  lemma OpenFirst(heading: string)
    requires IsHeading(heading)
    ensures Step(Start, heading) == ParseState([], SectionName(heading), [])
  {
  }

  // ---------------------------------------------------------------------------
  // Project overview items
  // ---------------------------------------------------------------------------

  /**
   * The lazy key of `- \*\*(.+?)\*\*:`: the smallest end `k >= from` at which
   * `**:` follows with at least one character after it (the value needs one).
   */
  function KeyEnd(rest: string, from: nat): (r: Option<nat>)
    ensures r.Some? ==> from <= r.value && MarkAt(rest, r.value)
    ensures forall k :: from <= k && (r.None? || k < r.value) ==> !MarkAt(rest, k)
    decreases |rest| - from
  {
    if from + 3 >= |rest| then None
    else if rest[from..from + 3] == "**:" then Some(from)
    else KeyEnd(rest, from + 1)
  }

  /** `**:` starts at `k` and at least one character follows it. */
  predicate MarkAt(rest: string, k: int) {
    0 <= k && k + 3 < |rest| && rest[k..k + 3] == "**:"
  }

  /** `\s*(.+)` on the text after `**:`: leading whitespace dropped, but one character kept. */
  function ItemValue(tail: string): (r: string)
    requires tail != []
    ensures r != [] && |r| <= |tail| && r == tail[|tail| - |r|..]
  {
    var t := TrimLeft(tail);
    if t == [] then tail[|tail| - 1..] else t
  }

  /**
   * `re.match(r'- \*\*(.+?)\*\*:\s*(.+)', line)` on a line that holds no
   * newline (the lines come from splitting at newlines).
   */
  function MatchItem(line: string): (r: Option<(string, string)>)
    ensures r.Some? ==> (StartsWith(line, "- **") && r.value.0 != [] && r.value.1 != [] && 4 + |r.value.0| <= |line|
                         && r.value.0 == line[4..][..|r.value.0|] && MarkAt(line[4..], |r.value.0|)
                         && |r.value.1| <= |line| && r.value.1 == line[|line| - |r.value.1|..])
  {
    if StartsWith(line, "- **") then
      var rest := line[4..];
      match KeyEnd(rest, 1)
      case None => None
      case Some(k) => Some((rest[..k], ItemValue(rest[k + 3..])))
    else None
  }

  /** The line an overview item is written as. */
  function ItemLine(key: string, value: string): string {
    "- **" + key + "**: " + value
  }

  /** An item whose key has no `*` and whose value starts with a non-space reads back as written. */
  lemma MatchItemLine(key: string, value: string)
    requires key != [] && forall i :: 0 <= i < |key| ==> key[i] != '*'
    requires value != [] && !IsSpace(value[0])
    ensures MatchItem(ItemLine(key, value)) == Some((key, value))
  {
    var line := ItemLine(key, value);
    assert StartsWith(line, "- **");
    var rest := line[4..];
    assert rest == key + "**: " + value;
    assert rest[|key|..|key| + 3] == "**:";
    assert MarkAt(rest, |key|);
    forall k | 1 <= k < |key| ensures !MarkAt(rest, k) {
      assert rest[k] == key[k];
      assert k + 3 < |rest| ==> rest[k..k + 3][0] == rest[k];
    }
    var r := KeyEnd(rest, 1);
    assert r == Some(|key|);
    assert rest[..|key|] == key;
    var tail := rest[|key| + 3..];
    assert tail == [' '] + value;
    assert IsSpace(' ');
    assert tail[1..] == value;
    assert TrimLeft(tail) == value;
  }

  /** The item each line gives: only lines starting with `- **` are tried. */
  function ItemsOf(lines: seq<string>): (items: seq<Option<(string, string)>>)
    ensures |items| == |lines|
    ensures forall i :: 0 <= i < |lines| ==>
      items[i] == (if StartsWith(lines[i], "- **") then MatchItem(lines[i]) else None)
    ensures forall i :: 0 <= i < |items| && items[i].Some? ==> items[i].value.0 != ""
  {
    seq(|lines|, i requires 0 <= i < |lines| => if StartsWith(lines[i], "- **") then MatchItem(lines[i]) else None)
  }

  /** The dictionary the items fill, in line order: a later item with the same key wins. */
  function Collect(items: seq<Option<(string, string)>>): map<string, string>
    decreases |items|
  {
    if items == [] then map[]
    else
      var m := Collect(items[..|items| - 1]);
      match items[|items| - 1]
      case Some((k, v)) => m[k := v]
      case None => m
  }

  /** The overview items of some lines. */
  function OverviewItems(lines: seq<string>): map<string, string> {
    Collect(ItemsOf(lines))
  }

  /** Item `i` has key `k`. */
  predicate KeyAt(items: seq<Option<(string, string)>>, i: int, k: string) {
    0 <= i < |items| && items[i].Some? && items[i].value.0 == k
  }

  /**
   * A key is present exactly when some item has it, and its value is the one
   * of the last such item.
   */
  lemma {:induction false} CollectLast(items: seq<Option<(string, string)>>, k: string)
    ensures k in Collect(items) <==> exists i :: KeyAt(items, i, k)
    ensures k in Collect(items) ==>
      exists i :: KeyAt(items, i, k) && items[i].value.1 == Collect(items)[k]
        && forall j :: i < j < |items| ==> !KeyAt(items, j, k)
    decreases |items|
  {
    if items != [] {
      var n := |items| - 1;
      var front := items[..n];
      CollectLast(front, k);
      assert forall i :: KeyAt(front, i, k) <==> 0 <= i < n && KeyAt(items, i, k);
      var m := Collect(items);
      if KeyAt(items, n, k) {
        assert m[k] == items[n].value.1;
      } else {
        assert k in m <==> k in Collect(front);
        if k in m {
          var i :| KeyAt(front, i, k) && front[i].value.1 == Collect(front)[k]
            && forall j :: i < j < |front| ==> !KeyAt(front, j, k);
          assert front[i] == items[i];
        }
      }
    }
  }

  /** Line `i` is an item line with key `k`. */
  predicate ItemKeyAt(lines: seq<string>, i: int, k: string) {
    0 <= i < |lines| && StartsWith(lines[i], "- **") && MatchItem(lines[i]).Some? && MatchItem(lines[i]).value.0 == k
  }

  /**
   * `info` is what the item lines say: a key is present exactly when some line
   * is an item with that key, and then has the value of the last such line.
   */
  ghost predicate ItemsRead(lines: seq<string>, info: map<string, string>) {
    && (forall k :: k in info <==> exists i :: ItemKeyAt(lines, i, k))
    && (forall k :: k in info ==>
          exists i :: ItemKeyAt(lines, i, k) && MatchItem(lines[i]).value.1 == info[k]
                      && forall j :: i < j < |lines| ==> !ItemKeyAt(lines, j, k))
  }

  /** The overview items are what the item lines say. */
  lemma OverviewItemsIff(lines: seq<string>)
    ensures ItemsRead(lines, OverviewItems(lines))
  {
    var items := ItemsOf(lines);
    assert forall i, k :: KeyAt(items, i, k) <==> ItemKeyAt(lines, i, k);
    forall k {
      CollectLast(items, k);
    }
  }

  /** Every overview key is a nonempty key of some item line. */
  lemma OverviewKeys(lines: seq<string>)
    ensures forall k :: k in OverviewItems(lines) ==> k != ""
  {
    forall k | k in OverviewItems(lines) ensures k != "" {
      CollectLast(ItemsOf(lines), k);
    }
  }

  // ---------------------------------------------------------------------------
  // Search hits
  // ---------------------------------------------------------------------------

  /** One search result: the section, the stripped paragraph and its occurrence count. */
  datatype Hit = Hit(section: string, content: string, relevance: int)

  function Relevance(h: Hit): int {
    h.relevance
  }

  /** The hit a paragraph gives for a lower-cased query, if it contains it. */
  function ParagraphHit(name: string, para: string, q: string): Option<Hit> {
    if Contains(Lower(para), q) then Some(Hit(name, Strip(para), CountOf(Lower(para), q))) else None
  }

  /** The values of the `Some` entries, in order. */
  function Somes<T>(opts: seq<Option<T>>): seq<T>
    decreases |opts|
  {
    if opts == [] then []
    else
      var last := opts[|opts| - 1];
      Somes(opts[..|opts| - 1]) + (if last.Some? then [last.value] else [])
  }

  lemma {:induction false} SomesIff<T>(opts: seq<Option<T>>, x: T)
    ensures x in Somes(opts) <==> exists j :: 0 <= j < |opts| && opts[j] == Some(x)
    decreases |opts|
  {
    if opts != [] {
      var front := opts[..|opts| - 1];
      SomesIff(front, x);
      assert forall j :: 0 <= j < |front| ==> front[j] == opts[j];
    }
  }

  /** The concatenation of some chunks, in order. */
  function Flatten<T>(chunks: seq<seq<T>>): seq<T>
    decreases |chunks|
  {
    if chunks == [] then [] else Flatten(chunks[..|chunks| - 1]) + chunks[|chunks| - 1]
  }

  lemma {:induction false} FlattenIff<T>(chunks: seq<seq<T>>, x: T)
    ensures x in Flatten(chunks) <==> exists i :: 0 <= i < |chunks| && x in chunks[i]
    decreases |chunks|
  {
    if chunks != [] {
      var front := chunks[..|chunks| - 1];
      FlattenIff(front, x);
      assert forall i :: 0 <= i < |front| ==> front[i] == chunks[i];
    }
  }

  /** What each paragraph gives. */
  function HitOpts(name: string, paras: seq<string>, q: string): (opts: seq<Option<Hit>>)
    ensures |opts| == |paras| && forall j :: 0 <= j < |paras| ==> opts[j] == ParagraphHit(name, paras[j], q)
  {
    seq(|paras|, j requires 0 <= j < |paras| => ParagraphHit(name, paras[j], q))
  }

  /** The hits of some paragraphs of one section, in paragraph order. */
  function ParagraphHits(name: string, paras: seq<string>, q: string): seq<Hit> {
    Somes(HitOpts(name, paras, q))
  }

  /** The hits of one section: none unless the whole body contains the query. */
  function SectionHit(name: string, content: string, q: string): seq<Hit> {
    if Contains(Lower(content), q) then ParagraphHits(name, Split(content, "\n\n"), q) else []
  }

  /** What each section gives. */
  function SectionChunks(sections: Entries, q: string): (chunks: seq<seq<Hit>>)
    ensures |chunks| == |sections|
    ensures forall i :: 0 <= i < |sections| ==> chunks[i] == SectionHit(sections[i].0, sections[i].1, q)
  {
    seq(|sections|, i requires 0 <= i < |sections| => SectionHit(sections[i].0, sections[i].1, q))
  }

  /** The hits of the sections, in section order, before sorting. */
  function SectionHits(sections: Entries, q: string): seq<Hit> {
    Flatten(SectionChunks(sections, q))
  }

  /** A hit belongs to the paragraphs exactly when one of them gives it. */
  lemma ParagraphHitsIff(name: string, paras: seq<string>, q: string, h: Hit)
    ensures h in ParagraphHits(name, paras, q) <==> exists j :: 0 <= j < |paras| && ParagraphHit(name, paras[j], q) == Some(h)
  {
    SomesIff(HitOpts(name, paras, q), h);
  }

  /**
   * With a nonempty query, every hit counts at least one occurrence and its
   * paragraph contains the query.
   */
  lemma ParagraphHitRelevant(name: string, para: string, q: string)
    requires q != [] && ParagraphHit(name, para, q).Some?
    ensures ParagraphHit(name, para, q).value.relevance > 0
    ensures ParagraphHit(name, para, q).value.section == name
  {
  }

  /** A hit is found exactly when some section contains the query and one of its paragraphs gives it. */
  lemma SectionHitsIff(sections: Entries, q: string, h: Hit)
    ensures h in SectionHits(sections, q) <==>
      exists i :: 0 <= i < |sections| && h in SectionHit(sections[i].0, sections[i].1, q)
  {
    FlattenIff(SectionChunks(sections, q), h);
  }

  // ---------------------------------------------------------------------------
  // The parser object
  // ---------------------------------------------------------------------------

  class ClaudeMdParser {
    /** The document text (reading it from the file system is not modelled). */
    const content: string
    const sections: Entries

    constructor(content: string)
      ensures this.content == content && sections == ParseSections(content)
    {
      this.content := content;
      var parsed := ParseSectionsLoop(content);
      sections := parsed;
    }

    /** `get_section(name)`: the body of the first section whose name contains `name`, ignoring case. */
    function GetSection(name: string): (r: Option<string>)
      ensures r.None? <==> forall i :: 0 <= i < |sections| ==> !NameMatches(sections[i].0, name)
      ensures r.Some? ==> exists i :: (0 <= i < |sections| && sections[i].1 == r.value
                                       && NameMatches(sections[i].0, name)
                                       && forall j :: 0 <= j < i ==> !NameMatches(sections[j].0, name))
    {
      match FirstTrue(NameHits(sections, name))
      case None => None
      case Some(i) => Some(sections[i].1)
    }

    /**
     * The body `get_project_overview` reads: the section found under the
     * Chinese name when its body is not empty, else the one found under the
     * English name when its body is not empty (an empty string is false to
     * Python's `or` and `not`); none otherwise.
     */
    function OverviewBody(): (r: Option<string>)
      ensures r.Some? ==> r.value != "" && (r == GetSection("專案概覽") || r == GetSection("Project Overview"))
      ensures r.None? <==> (GetSection("專案概覽").None? || GetSection("專案概覽").value == "")
                           && (GetSection("Project Overview").None? || GetSection("Project Overview").value == "")
      ensures GetSection("專案概覽").Some? && GetSection("專案概覽").value != "" ==> r == GetSection("專案概覽")
      ensures (forall i :: 0 <= i < |sections| ==> sections[i].1 == "") ==> r.None?
    {
      var first := GetSection("專案概覽");
      var overview := if first.Some? && first.value != "" then first else GetSection("Project Overview");
      if overview.None? || overview.value == "" then None else overview
    }

    /**
     * `get_project_overview()`: the `- **key**: value` items of the overview
     * body, a key present exactly when some line gives it, with the value of
     * the last such line; no items without an overview body.
     */
    function ProjectOverview(): (info: map<string, string>)
      ensures (forall i :: 0 <= i < |sections| ==> sections[i].1 == "") ==> info == map[]
      ensures OverviewBody().None? ==> info == map[]
      ensures OverviewBody().Some? ==> ItemsRead(Split(OverviewBody().value, "\n"), info)
      ensures forall k :: k in info ==> k != ""
    {
      var body := OverviewBody();
      if body.None? then map[]
      else
        var lines := Split(body.value, "\n");
        OverviewKeys(lines);
        OverviewItemsIff(lines);
        OverviewItems(lines)
    }

    /**
     * `search(query)`: every paragraph containing the query, ignoring case, of
     * every section containing it, ordered by occurrence count, largest first,
     * ties in document order.
     */
    method Search(query: string) returns (results: seq<Hit>)
      ensures results == Ranking.SortDesc(SectionHits(sections, Lower(query)), Relevance)
    {
      var q := Lower(query);
      var collected: seq<Hit> := [];
      var i := 0;
      while i < |sections|
        invariant 0 <= i <= |sections|
        invariant collected == Flatten(SectionChunks(sections, q)[..i])
      {
        var (name, body) := sections[i];
        var found := SearchSection(name, body, q);
        ghost var chunks := SectionChunks(sections, q);
        assert chunks[..i + 1][..i] == chunks[..i] && chunks[i] == found;
        collected := collected + found;
        i := i + 1;
      }
      assert SectionChunks(sections, q)[..|sections|] == SectionChunks(sections, q);
      results := Ranking.SortDesc(collected, Relevance);
    }
  }

  /** A section name matches a query when it contains it, ignoring case. */
  predicate NameMatches(key: string, name: string) {
    Contains(Lower(key), Lower(name))
  }

  /** Which section names match. */
  function NameHits(sections: Entries, name: string): (bs: seq<bool>)
    ensures |bs| == |sections| && forall i :: 0 <= i < |sections| ==> bs[i] == NameMatches(sections[i].0, name)
  {
    seq(|sections|, i requires 0 <= i < |sections| => NameMatches(sections[i].0, name))
  }

  /** The index of the first `true`, if any. */
  function FirstTrue(bs: seq<bool>): (r: Option<nat>)
    ensures r.None? <==> forall i :: 0 <= i < |bs| ==> !bs[i]
    ensures r.Some? ==> r.value < |bs| && bs[r.value] && forall j :: 0 <= j < r.value ==> !bs[j]
    decreases |bs|
  {
    if bs == [] then None
    else if bs[0] then Some(0)
    else
      var r := FirstTrue(bs[1..]);
      assert forall i :: 0 < i < |bs| ==> bs[i] == bs[1..][i - 1];
      if r.Some? then Some(r.value + 1) else None
  }

  /** The inner loop of `search`: the hits of one section's paragraphs. */
  method SearchSection(name: string, body: string, q: string) returns (found: seq<Hit>)
    ensures found == SectionHit(name, body, q)
  {
    found := [];
    if Contains(Lower(body), q) {
      var paras := Split(body, "\n\n");
      var j := 0;
      while j < |paras|
        invariant 0 <= j <= |paras|
        invariant found == Somes(HitOpts(name, paras, q)[..j])
      {
        var p := paras[j];
        ghost var opts := HitOpts(name, paras, q);
        assert opts[..j + 1][..j] == opts[..j] && opts[j] == ParagraphHit(name, p, q);
        if Contains(Lower(p), q) {
          found := found + [Hit(name, Strip(p), CountOf(Lower(p), q))];
        }
        j := j + 1;
      }
      assert HitOpts(name, paras, q)[..|paras|] == HitOpts(name, paras, q);
    }
  }

  /**
   * The search result is the collected hits reordered: every hit kept,
   * relevance never increasing, hits of equal relevance in document order.
   */
  lemma SearchOrdered(hits: seq<Hit>, r: int)
    ensures multiset(Ranking.SortDesc(hits, Relevance)) == multiset(hits)
    ensures Ranking.SortedDesc(Ranking.SortDesc(hits, Relevance), Relevance)
    ensures Ranking.WithKey(Ranking.SortDesc(hits, Relevance), Relevance, r) == Ranking.WithKey(hits, Relevance, r)
  {
    Ranking.SortDescSorted(hits, Relevance);
    Ranking.SortDescStable(hits, Relevance, r);
  }
}
