/** Heading-delimited sections with absolute offsets: `_split_sections` of
    brainstack/document_pipeline.py. */
module DocumentSections {
  import opened ChunkRanges
  import opened Results
  import opened Sequences
  import opened Text

  datatype Section = Section(
    sectionId: string, heading: string, order: nat, startOffset: nat, endOffset: nat, text: string)

  /** How the n-th record of a kind is named, for example `<document id>:section:<n>`. */
  type Names = nat -> string

  // ----- sections -----

  function DropHashes(s: string): string {
    if s != "" && s[0] == '#' then DropHashes(s[1..]) else s
  }

  function HeadingText(line: string): string {
    Strip(DropHashes(Strip(line)))
  }

  /** The title of a heading line, that is, one whose stripped text starts with `#` and has more. */
  function HeadingOf(line: string): Option<string> {
    if Strip(line) != "" && Strip(line)[0] == '#' && HeadingText(line) != "" then Some(HeadingText(line)) else None
  }

  /** The text starts with exactly `k` hash signs. */
  predicate Hashes(s: string, k: int) {
    0 <= k <= |s| && (forall i :: 0 <= i < k ==> s[i] == '#') && (k < |s| ==> s[k] != '#')
  }

  lemma {:induction false} DropExactly(s: string) returns (k: nat)
    ensures Hashes(s, k) && DropHashes(s) == s[k..]
  {
    if s != "" && s[0] == '#' {
      var n := DropExactly(s[1..]);
      k := n + 1;
      assert s[1..][n..] == s[k..] && forall i :: 0 < i < k ==> s[i] == s[1..][i - 1];
      assert k < |s| ==> s[k] == s[1..][n];
    } else {
      k := 0;
    }
  }

  /** The text is `k` hash signs, at least one, and a title. */
  predicate TitledBy(s: string, k: int, title: string) {
    Hashes(s, k) && k >= 1 && title == Strip(s[k..]) && title != ""
  }

  lemma HeadingExactly(line: string, title: string)
    ensures HeadingOf(line) == Some(title) <==> exists k :: TitledBy(Strip(line), k, title)
  {
    hide Strip;
    var n := DropExactly(Strip(line));
    TitledOnce(Strip(line), n, title);
    hide TitledBy, Hashes;
  }

  lemma TitledOnce(s: string, n: nat, title: string)
    requires Hashes(s, n)
    ensures forall k :: TitledBy(s, k, title) ==> k == n
    ensures TitledBy(s, n, title) <==> s != "" && s[0] == '#' && title == Strip(s[n..]) && title != ""
  {
    hide Strip;
    forall k | TitledBy(s, k, title) ensures k == n {
    }
  }

  type HeadingRule = string -> Option<string>

  datatype Titled = Titled(heading: string, range: Range)

  function Emit(content: string, s: nat, e: nat, heading: string): (ts: seq<Titled>)
    requires s <= e <= |content|
  {
    var r := Trim(content, s, e);
    if r.lo < r.hi then [Titled(heading, r)] else []
  }

  /** The spans flushed while reading `lines`, which start at `offset`; `start` and `heading` are the
      open section. */
  function SectionSpans(rule: HeadingRule, content: string, lines: seq<string>, offset: nat, start: nat, heading: string): seq<Titled>
    requires start <= offset && offset + |Concat(lines)| == |content|
    decreases |lines|
  {
    if lines == [] then Emit(content, start, offset, heading)
    else
      var next := offset + |lines[0]|;
      if rule(lines[0]).Some? then
        Emit(content, start, offset, heading) + SectionSpans(rule, content, lines[1..], next, next, rule(lines[0]).value)
      else SectionSpans(rule, content, lines[1..], next, start, heading)
  }

  /** All spans of a document; with no body text at all, the whole of it under "Document". */
  function DocumentSpans(rule: HeadingRule, content: string): seq<Titled> {
    LinesConcat(content);
    var ts := SectionSpans(rule, content, Lines(content), 0, 0, "Document");
    if ts != [] then ts else Emit(content, 0, |content|, "Document")
  }

  function SectionOf(names: Names, content: string, t: Titled, order: nat): Section
    requires t.range.lo <= t.range.hi <= |content|
  {
    Section(names(order), t.heading, order, t.range.lo, t.range.hi, content[t.range.lo..t.range.hi])
  }

  ghost predicate Within(content: string, ts: seq<Titled>) {
    forall i :: 0 <= i < |ts| ==> ts[i].range.lo <= ts[i].range.hi <= |content|
  }

  function Numbered(names: Names, content: string, ts: seq<Titled>): (ss: seq<Section>)
    requires Within(content, ts)
    ensures |ss| == |ts|
  {
    if ts == [] then []
    else
      var n := |ts| - 1;
      Numbered(names, content, ts[..n]) + [SectionOf(names, content, ts[n], n + 1)]
  }

  lemma {:induction false} NumberedAt(names: Names, content: string, ts: seq<Titled>, i: nat)
    requires Within(content, ts) && i < |ts|
    ensures Numbered(names, content, ts)[i] == SectionOf(names, content, ts[i], i + 1)
  {
    if i < |ts| - 1 {
      NumberedAt(names, content, ts[..|ts| - 1], i);
    }
  }

  method FlushSection(names: Names, content: string, sections: seq<Section>,
                      ghost done: seq<Titled>, heading: string, start: nat, end: nat) returns (r: seq<Section>)
    requires start <= end <= |content|
    requires Within(content, done) && sections == Numbered(names, content, done)
    ensures Within(content, done + Emit(content, start, end, heading))
    ensures r == Numbered(names, content, done + Emit(content, start, end, heading))
  {
    var lo, hi, text := TrimSpan(content, start, end);
    if text == "" {
      assert done + [] == done;
      return sections;
    }
    r := sections + [Section(names(|sections| + 1), heading, |sections| + 1, lo, hi, text)];
    ghost var all := done + [Titled(heading, Range(lo, hi))];
    assert all[..|all| - 1] == done;
  }

  /** The guarded flush at a heading line: skipped only when there is nothing before the heading. */
  method FlushAtHeading(names: Names, content: string, sections: seq<Section>, ghost done: seq<Titled>,
                        heading: string, start: nat, offset: nat, hasHeading: bool) returns (r: seq<Section>)
    requires start <= offset <= |content|
    requires Within(content, done) && sections == Numbered(names, content, done)
    ensures Within(content, done + Emit(content, start, offset, heading))
    ensures r == Numbered(names, content, done + Emit(content, start, offset, heading))
  {
    if hasHeading || offset > start {
      r := FlushSection(names, content, sections, done, heading, start, offset);
    } else {
      assert done + Emit(content, start, offset, heading) == done;
      r := sections;
    }
  }

  /** The document without body text: one section over all of it, or none. */
  method WholeDocument(names: Names, content: string) returns (sections: seq<Section>)
    ensures Within(content, Emit(content, 0, |content|, "Document"))
    ensures sections == Numbered(names, content, Emit(content, 0, |content|, "Document"))
  {
    var start, end, text := TrimSpan(content, 0, |content|);
    if text == "" {
      return [];
    }
    assert [Titled("Document", Range(start, end))][..0] == [];
    sections := [Section(names(1), "Document", 1, start, end, text)];
  }

  /** What was flushed and what is still to come make up all spans. */
  ghost predicate Reading(rule: HeadingRule, content: string, lines: seq<string>, offset: nat, start: nat, heading: string,
                          done: seq<Titled>, all: seq<Titled>) {
    && start <= offset <= |content| && offset + |Concat(lines)| == |content|
    && all == done + SectionSpans(rule, content, lines, offset, start, heading)
  }

  lemma ReadingStarts(rule: HeadingRule, names: Names, content: string, lines: seq<string>, heading: string)
    requires Concat(lines) == content
    ensures Reading(rule, content, lines[0..], 0, 0, heading, [], SectionSpans(rule, content, lines, 0, 0, heading))
    ensures Within(content, []) && Numbered(names, content, []) == []
  {
    assert lines[0..] == lines;
  }

  /** One line of the source's loop, as a step of the recursive specification. */
  lemma ReadingStep(rule: HeadingRule, content: string, lines: seq<string>, i: nat, offset: nat, start: nat, heading: string,
                    done: seq<Titled>, all: seq<Titled>)
    requires i < |lines| && Reading(rule, content, lines[i..], offset, start, heading, done, all)
    ensures start <= offset <= |content|
    ensures var next := offset + |lines[i]|;
            if rule(lines[i]).Some? then
              Reading(rule, content, lines[i + 1..], next, next, rule(lines[i]).value, done + Emit(content, start, offset, heading), all)
            else Reading(rule, content, lines[i + 1..], next, start, heading, done, all)
  {
    hide Emit;
    Uncons(lines, i);
    if rule(lines[i]).Some? {
      var next := offset + |lines[i]|;
      AppendMany(done, Emit(content, start, offset, heading),
                 SectionSpans(rule, content, lines[i + 1..], next, next, rule(lines[i]).value));
    }
  }

  /** With no line left, what is still to come is the open section. */
  lemma ReadingEnds(rule: HeadingRule, content: string, lines: seq<string>, offset: nat, start: nat, heading: string,
                    done: seq<Titled>, all: seq<Titled>)
    requires Reading(rule, content, lines[|lines|..], offset, start, heading, done, all)
    ensures start <= |content| && all == done + Emit(content, start, |content|, heading)
  {
    assert lines[|lines|..] == [];
  }

  /** The loop over the lines: what it flushed, and the section that it leaves open. */
  method ReadLines(rule: HeadingRule, names: Names, content: string, lines: seq<string>, heading: string)
    returns (sections: seq<Section>, ghost done: seq<Titled>, currentHeading: string, currentStart: nat)
    requires Concat(lines) == content
    ensures Within(content, done) && sections == Numbered(names, content, done) && currentStart <= |content|
    ensures SectionSpans(rule, content, lines, 0, 0, heading) == done + Emit(content, currentStart, |content|, currentHeading)
  {
    hide SectionSpans, Emit, Concat, Numbered, Within, Reading;
    sections, done := [], [];
    currentHeading, currentStart := heading, 0;
    var currentHasHeading, offset: nat := false, 0;
    ghost var all := SectionSpans(rule, content, lines, 0, 0, heading);
    ReadingStarts(rule, names, content, lines, heading);
    for i := 0 to |lines|
      invariant Within(content, done) && sections == Numbered(names, content, done)
      invariant Reading(rule, content, lines[i..], offset, currentStart, currentHeading, done, all)
    {
      var line := lines[i];
      ReadingStep(rule, content, lines, i, offset, currentStart, currentHeading, done, all);
      if rule(line).Some? {
        sections := FlushAtHeading(names, content, sections, done, currentHeading, currentStart, offset,
                                   currentHasHeading);
        done := done + Emit(content, currentStart, offset, currentHeading);
        currentHeading := rule(line).value;
        currentStart := offset + |line|;
        currentHasHeading := true;
      }
      offset := offset + |line|;
    }
    ReadingEnds(rule, content, lines, offset, currentStart, currentHeading, done, all);
  }

  method SplitAtHeadings(rule: HeadingRule, names: Names, content: string, lines: seq<string>)
    returns (sections: seq<Section>)
    requires Concat(lines) == content
    ensures Within(content, SectionSpans(rule, content, lines, 0, 0, "Document"))
    ensures sections == Numbered(names, content, SectionSpans(rule, content, lines, 0, 0, "Document"))
  {
    hide SectionSpans, Emit, Numbered, Within;
    ghost var done;
    var heading, start;
    sections, done, heading, start := ReadLines(rule, names, content, lines, "Document");
    sections := FlushSection(names, content, sections, done, heading, start, |content|);
  }

  method SplitSections(rule: HeadingRule, names: Names, content: string) returns (sections: seq<Section>)
    ensures Within(content, DocumentSpans(rule, content))
    ensures sections == Numbered(names, content, DocumentSpans(rule, content))
  {
    LinesConcat(content);
    sections := SplitAtHeadings(rule, names, content, Lines(content));
    if sections == [] {
      sections := WholeDocument(names, content);
    }
  }

  // ----- what the sections are -----

  /** Positions of non-whitespace characters outside heading lines. */
  ghost function Body(rule: HeadingRule, content: string, lines: seq<string>, offset: nat): set<nat> {
    if lines == [] then {}
    else
      (if rule(lines[0]).Some? then {} else NonSpace(content, offset, offset + |lines[0]|))
      + Body(rule, content, lines[1..], offset + |lines[0]|)
  }

  /** The heading in force at position `k` counted from the start of `lines`; none on a heading line. */
  ghost function HeadingAt(rule: HeadingRule, lines: seq<string>, k: nat, heading: string): Option<string> {
    if lines == [] then None
    else if k < |lines[0]| then (if rule(lines[0]).Some? then None else Some(heading))
    else HeadingAt(rule, lines[1..], k - |lines[0]|, if rule(lines[0]).Some? then rule(lines[0]).value else heading)
  }

  ghost function Ranges(ts: seq<Titled>): (rs: seq<Range>)
    ensures |rs| == |ts| && forall i :: 0 <= i < |ts| ==> rs[i] == ts[i].range
  {
    seq(|ts|, i requires 0 <= i < |ts| => ts[i].range)
  }

  lemma EmitTiles(content: string, s: nat, e: nat, heading: string)
    requires s <= e <= |content|
    ensures Tiling(Ranges(Emit(content, s, e, heading)), NonSpace(content, s, e), s, e)
  {
    TrimmedTiles(content, s, e);
    assert Ranges(Emit(content, s, e, heading)) == Trimmed(content, s, e);
  }

  lemma RangesAppend(a: seq<Titled>, b: seq<Titled>)
    ensures Ranges(a + b) == Ranges(a) + Ranges(b)
  {
  }

  lemma NonSpaceGrows(content: string, start: nat, mid: nat, end: nat)
    requires start <= mid <= end
    ensures NonSpace(content, start, end) == NonSpace(content, start, mid) + NonSpace(content, mid, end)
  {
  }

  lemma {:induction false} SectionSpansTile(rule: HeadingRule, content: string, lines: seq<string>, offset: nat, start: nat, heading: string)
    requires start <= offset <= |content| && content[offset..] == Concat(lines)
    ensures Tiling(Ranges(SectionSpans(rule, content, lines, offset, start, heading)),
                   NonSpace(content, start, offset) + Body(rule, content, lines, offset), start, |content|)
    decreases |lines|
  {
    hide NonSpace, Emit, Ranges, Cover, Ordered;
    if lines == [] {
      EmitTiles(content, start, offset, heading);
    } else {
      var line, rest := lines[0], lines[1..];
      var next := offset + |line|;
      assert content[next..] == content[offset..][|line|..] == Concat(rest);
      NonSpaceGrows(content, start, offset, next);
      if rule(line).Some? {
        var h := rule(line).value;
        SectionSpansTile(rule, content, rest, next, next, h);
        EmitTiles(content, start, offset, heading);
        var a, b := Emit(content, start, offset, heading), SectionSpans(rule, content, rest, next, next, h);
        TilingAppend(Ranges(a), start, offset, next, Ranges(b), |content|);
        RangesAppend(a, b);
      } else {
        SectionSpansTile(rule, content, rest, next, start, heading);
      }
    }
  }

  /** Every position of a section is under that section's heading and on no heading line. */
  lemma {:induction false} SectionHeadings(rule: HeadingRule, content: string, lines: seq<string>, offset: nat,
                                           start: nat, heading: string, i: nat, k: nat)
    requires start <= offset <= |content| && content[offset..] == Concat(lines)
    requires var ts := SectionSpans(rule, content, lines, offset, start, heading);
             i < |ts| && ts[i].range.lo <= k < ts[i].range.hi
    ensures var t := SectionSpans(rule, content, lines, offset, start, heading)[i];
            if k < offset then t.heading == heading else HeadingAt(rule, lines, k - offset, heading) == Some(t.heading)
    decreases |lines|
  {
    if lines == [] {
      EmitTiles(content, start, offset, heading);
    } else {
      var line, rest := lines[0], lines[1..];
      var next := offset + |line|;
      assert content[next..] == content[offset..][|line|..] == Concat(rest);
      if rule(line).Some? {
        var a := Emit(content, start, offset, heading);
        var b := SectionSpans(rule, content, rest, next, next, rule(line).value);
        SectionSpansTile(rule, content, rest, next, next, rule(line).value);
        OrderedBounds(Ranges(b), next, |content|);
        if i >= |a| {
          assert Ranges(b)[i - |a|] == b[i - |a|].range;
          SectionHeadings(rule, content, rest, next, next, rule(line).value, i - |a|, k);
        }
      } else {
        SectionHeadings(rule, content, rest, next, start, heading, i, k);
      }
    }
  }

  lemma {:induction false} BodyNonSpace(rule: HeadingRule, content: string, lines: seq<string>, offset: nat)
    ensures forall k :: k in Body(rule, content, lines, offset) ==> k < |content| && !IsSpace(content[k])
    decreases |lines|
  {
    if lines != [] {
      BodyNonSpace(rule, content, lines[1..], offset + |lines[0]|);
    }
  }

  /** The sections of a document leave out no body character and stay off heading lines, unless the
      document has nothing but headings. */
  lemma SectionsTile(rule: HeadingRule, content: string)
    ensures Tiling(Ranges(DocumentSpans(rule, content)), Body(rule, content, Lines(content), 0), 0, |content|)
    ensures Within(content, DocumentSpans(rule, content))
    ensures DocumentSpans(rule, content) == [] <==> Blank(content)
  {
    var lines := Lines(content);
    LinesConcat(content);
    SectionSpansTile(rule, content, lines, 0, 0, "Document");
    EmitTiles(content, 0, |content|, "Document");
    SpansEmpty(rule, content);
    hide Body;
    TiledWithin(content, DocumentSpans(rule, content));
  }

  lemma TiledWithin(content: string, ts: seq<Titled>)
    requires Ordered(Ranges(ts), 0, |content|)
    ensures Within(content, ts)
  {
    OrderedBounds(Ranges(ts), 0, |content|);
    forall i | 0 <= i < |ts| ensures ts[i].range.lo < ts[i].range.hi <= |content| {
      assert Ranges(ts)[i] == ts[i].range;
    }
  }

  /** Everywhere in a span of the document its heading is in force; a document with nothing but headings is one span
      under "Document". */
  lemma DocumentHeadings(rule: HeadingRule, content: string, i: nat, k: nat)
    requires var ts := DocumentSpans(rule, content); i < |ts| && ts[i].range.lo <= k < ts[i].range.hi
    ensures var t := DocumentSpans(rule, content)[i];
            if Body(rule, content, Lines(content), 0) != {} then HeadingAt(rule, Lines(content), k, "Document") == Some(t.heading)
            else t.heading == "Document"
  {
    LinesConcat(content);
    var lines := Lines(content);
    SectionSpansTile(rule, content, lines, 0, 0, "Document");
    hide Body, HeadingAt, SectionSpans, Lines, IsSpace;
    if SectionSpans(rule, content, lines, 0, 0, "Document") != [] {
      SectionHeadings(rule, content, lines, 0, 0, "Document", i, k);
      var first := DocumentSpans(rule, content)[i].range.lo;
      SectionHeadings(rule, content, lines, 0, 0, "Document", i, first);
      SpanNonSpace(rule, content, lines, 0, 0, "Document", i);
      InBody(rule, content, lines, 0, "Document", first);
    }
  }

  /** The records of a document's sections: named and numbered by place, with the text between their offsets and the
      heading in force there. */
  lemma RecordExactly(rule: HeadingRule, names: Names, content: string, i: nat, k: nat)
    requires Within(content, DocumentSpans(rule, content)) && i < |Numbered(names, content, DocumentSpans(rule, content))|
    requires var s := Numbered(names, content, DocumentSpans(rule, content))[i]; s.startOffset <= k < s.endOffset
    ensures var s := Numbered(names, content, DocumentSpans(rule, content))[i];
            && s.sectionId == names(i + 1) && s.order == i + 1
            && s.endOffset <= |content| && s.text == content[s.startOffset..s.endOffset]
            && (if Body(rule, content, Lines(content), 0) != {} then HeadingAt(rule, Lines(content), k, "Document") == Some(s.heading)
                else s.heading == "Document")
  {
    hide Body, HeadingAt, DocumentSpans, Numbered, Lines;
    NumberedAt(names, content, DocumentSpans(rule, content), i);
    DocumentHeadings(rule, content, i, k);
  }

  lemma {:induction false} InBody(rule: HeadingRule, content: string, lines: seq<string>, offset: nat, heading: string, k: nat)
    requires offset <= k < |content| && !IsSpace(content[k]) && HeadingAt(rule, lines, k - offset, heading).Some?
    ensures k in Body(rule, content, lines, offset)
    decreases |lines|
  {
    hide IsSpace;
    if k - offset >= |lines[0]| {
      InBody(rule, content, lines[1..], offset + |lines[0]|, if rule(lines[0]).Some? then rule(lines[0]).value else heading, k);
    }
  }

  lemma SpansEmpty(rule: HeadingRule, content: string)
    ensures DocumentSpans(rule, content) == [] <==> Blank(content)
  {
    LinesConcat(content);
    TrimExact(content, 0, |content|);
    var ts := SectionSpans(rule, content, Lines(content), 0, 0, "Document");
    if ts != [] {
      SpanNonSpace(rule, content, Lines(content), 0, 0, "Document", 0);
    }
  }

  lemma {:induction false} SpanNonSpace(rule: HeadingRule, content: string, lines: seq<string>, offset: nat,
                                        start: nat, heading: string, i: nat)
    requires start <= offset && offset + |Concat(lines)| == |content|
    requires i < |SectionSpans(rule, content, lines, offset, start, heading)|
    ensures var t := SectionSpans(rule, content, lines, offset, start, heading)[i];
            t.range.lo < |content| && !IsSpace(content[t.range.lo])
    decreases |lines|
  {
    TrimExact(content, start, offset);
    if lines != [] {
      var next := offset + |lines[0]|;
      if rule(lines[0]).Some? {
        var a := Emit(content, start, offset, heading);
        if i >= |a| {
          SpanNonSpace(rule, content, lines[1..], next, next, rule(lines[0]).value, i - |a|);
        }
      } else {
        SpanNonSpace(rule, content, lines[1..], next, start, heading, i);
      }
    }
  }

  lemma DocumentSpanStarts(rule: HeadingRule, content: string, i: nat)
    requires i < |DocumentSpans(rule, content)|
    ensures var r := DocumentSpans(rule, content)[i].range;
            r.lo < r.hi <= |content| && !IsSpace(content[r.lo])
  {
    LinesConcat(content);
    var ts := DocumentSpans(rule, content);
    SectionsTile(rule, content);
    OrderedBounds(Ranges(ts), 0, |content|);
    assert Ranges(ts)[i] == ts[i].range;
    if SectionSpans(rule, content, Lines(content), 0, 0, "Document") != [] {
      SpanNonSpace(rule, content, Lines(content), 0, 0, "Document", i);
    } else {
      TrimExact(content, 0, |content|);
    }
  }
}
