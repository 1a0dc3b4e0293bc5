/** The offline document pilot: bounded chunks with absolute offsets, claims bound to the chunk that
    holds their evidence, and conflict candidates (brainstack/document_pipeline.py). */
module DocumentPipeline {
  import opened ChunkRanges
  import opened DocumentSections
  import opened EvidenceSpans
  import opened Sequences
  import opened Text

  datatype Chunk = Chunk(
    chunkId: string, sectionId: string, order: nat, startOffset: nat, endOffset: nat, text: string)

  // ----- chunks -----

  function ChunkOf(names: Names, s: Section, r: Range, order: nat): Chunk
    requires r.lo <= r.hi <= |s.text|
  {
    Chunk(names(order), s.sectionId, order,
          s.startOffset + r.lo, s.startOffset + r.hi, s.text[r.lo..r.hi])
  }

  /** The chunk of one range, or nothing when the range is all whitespace. */
  function RangeChunk(names: Names, s: Section, q: Range, n: nat): (cs: seq<Chunk>)
    requires q.lo <= q.hi <= |s.text|
  {
    var r := Trim(s.text, q.lo, q.hi);
    if r.lo < r.hi then [ChunkOf(names, s, r, n + 1)] else []
  }

  /** The chunks of one section, numbered from `n + 1`. */
  function SectionChunks(names: Names, s: Section, ranges: seq<Range>, n: nat): seq<Chunk>
    requires InText(s.text, ranges)
    decreases |ranges|
  {
    if ranges == [] then []
    else
      var cs := RangeChunk(names, s, ranges[0], n);
      cs + SectionChunks(names, s, ranges[1..], n + |cs|)
  }

  function TextRanges(s: Section, maxChars: nat): (rs: seq<Range>)
    requires maxChars >= 1
    ensures InText(s.text, rs)
  {
    RangesOfTile(s.text, maxChars);
    OrderedBounds(RangesOf(s.text, maxChars), 0, |s.text|);
    RangesOf(s.text, maxChars)
  }

  function AllChunks(names: Names, sections: seq<Section>, maxChars: nat, n: nat): seq<Chunk>
    requires maxChars >= 1
    decreases |sections|
  {
    if sections == [] then []
    else
      var cs := SectionChunks(names, sections[0], TextRanges(sections[0], maxChars), n);
      cs + AllChunks(names, sections[1..], maxChars, n + |cs|)
  }

  method ChunkRange(names: Names, s: Section, q: Range, n: nat) returns (cs: seq<Chunk>)
    requires q.lo <= q.hi <= |s.text|
    ensures cs == RangeChunk(names, s, q, n)
  {
    var lo, hi, text := TrimSpan(s.text, q.lo, q.hi);
    if text == "" {
      return [];
    }
    cs := [Chunk(names(n + 1), s.sectionId, n + 1, s.startOffset + lo, s.startOffset + hi, text)];
  }

  method ChunkSection(names: Names, s: Section, ranges: seq<Range>, n: nat) returns (chunks: seq<Chunk>)
    requires InText(s.text, ranges)
    ensures chunks == SectionChunks(names, s, ranges, n)
  {
    hide RangeChunk;
    chunks := [];
    assert ranges[0..] == ranges;
    ghost var all := SectionChunks(names, s, ranges, n);
    var made := n;
    for i := 0 to |ranges|
      invariant made == n + |chunks|
      invariant all == chunks + SectionChunks(names, s, ranges[i..], made)
    {
      Uncons(ranges, i);
      var cs := ChunkRange(names, s, ranges[i], made);
      AppendMany(chunks, cs, SectionChunks(names, s, ranges[i + 1..], made + |cs|));
      chunks := chunks + cs;
      made := made + |cs|;
    }
  }

  lemma AllChunksStep(names: Names, sections: seq<Section>, i: nat, maxChars: nat, n: nat, cs: seq<Chunk>)
    requires i < |sections| && maxChars >= 1
    requires cs == SectionChunks(names, sections[i], TextRanges(sections[i], maxChars), n)
    ensures AllChunks(names, sections[i..], maxChars, n) ==
            cs + AllChunks(names, sections[i + 1..], maxChars, n + |cs|)
  {
    hide TextRanges, SectionChunks;
    Uncons(sections, i);
  }

  method BuildChunks(names: Names, sections: seq<Section>, maxChunkChars: nat) returns (chunks: seq<Chunk>)
    requires maxChunkChars >= 1
    ensures chunks == AllChunks(names, sections, maxChunkChars, 0)
  {
    hide TextRanges, SectionChunks;
    chunks := [];
    assert sections[0..] == sections;
    ghost var all := AllChunks(names, sections, maxChunkChars, 0);
    var made := 0;
    for i := 0 to |sections|
      invariant made == |chunks|
      invariant all == chunks + AllChunks(names, sections[i..], maxChunkChars, made)
    {
      var cs := ChunkOneSection(names, sections[i], maxChunkChars, made);
      AllChunksStep(names, sections, i, maxChunkChars, made, cs);
      AppendMany(chunks, cs, AllChunks(names, sections[i + 1..], maxChunkChars, made + |cs|));
      chunks := chunks + cs;
      made := made + |cs|;
    }
  }

  method ChunkOneSection(names: Names, s: Section, maxChunkChars: nat, n: nat) returns (chunks: seq<Chunk>)
    requires maxChunkChars >= 1
    ensures chunks == SectionChunks(names, s, TextRanges(s, maxChunkChars), n)
  {
    var ranges := SplitChunkRanges(s.text, maxChunkChars);
    assert ranges == TextRanges(s, maxChunkChars);
    chunks := ChunkSection(names, s, ranges, n);
  }

  // ----- chunks tile the body text -----

  ghost function Spans(cs: seq<Chunk>): (rs: seq<Range>)
    ensures |rs| == |cs| && forall i :: 0 <= i < |cs| ==> rs[i] == Range(cs[i].startOffset, cs[i].endOffset)
  {
    seq(|cs|, i requires 0 <= i < |cs| => Range(cs[i].startOffset, cs[i].endOffset))
  }

  /** A chunk is what its offsets say, bounded, and numbered by its place. */
  ghost predicate Faithful(content: string, names: Names, c: Chunk, order: nat, maxChars: nat) {
    && c.startOffset < c.endOffset <= |content|
    && c.text == content[c.startOffset..c.endOffset]
    && |c.text| <= maxChars
    && c.order == order && c.chunkId == names(order)
  }

  ghost predicate AllFaithful(content: string, names: Names, cs: seq<Chunk>, n: nat, maxChars: nat) {
    forall i :: 0 <= i < |cs| ==> Faithful(content, names, cs[i], n + i + 1, maxChars)
  }

  ghost predicate Cut(content: string, s: Section) {
    s.startOffset <= s.endOffset <= |content| && s.text == content[s.startOffset..s.endOffset]
  }

  /** Positions of a section's ranges that hold something, moved to absolute offsets. */
  ghost predicate Kept(s: Section, ranges: seq<Range>, rs: seq<Range>) {
    forall k :: k in Cover(ranges) && k < |s.text| && !IsSpace(s.text[k]) ==> s.startOffset + k in Cover(rs)
  }

  lemma {:induction false} SectionChunksTile(content: string, names: Names, s: Section, ranges: seq<Range>,
                                             n: nat, lo: nat, hi: nat, maxChars: nat)
    requires Cut(content, s) && InText(s.text, ranges) && Ordered(ranges, lo, hi) && AtMost(ranges, maxChars)
    ensures var cs := SectionChunks(names, s, ranges, n);
            && Ordered(Spans(cs), s.startOffset + lo, s.startOffset + hi)
            && Kept(s, ranges, Spans(cs))
            && AllFaithful(content, names, cs, n, maxChars)
    decreases |ranges|
  {
    hide RangeChunk;
    if ranges != [] {
      var q, tail := ranges[0], ranges[1..];
      var cs := RangeChunk(names, s, q, n);
      RangeChunkTiles(content, names, s, q, n, maxChars);
      SectionChunksTile(content, names, s, tail, n + |cs|, q.hi, hi, maxChars);
      var rest := SectionChunks(names, s, tail, n + |cs|);
      JoinRanges(content, names, s, q, tail, cs, rest, n, lo, hi, maxChars);
      assert [q] + tail == ranges;
    }
  }

  lemma RangeChunkTiles(content: string, names: Names, s: Section, q: Range, n: nat, maxChars: nat)
    requires Cut(content, s) && q.lo < q.hi <= |s.text| && q.hi - q.lo <= maxChars
    ensures var cs := RangeChunk(names, s, q, n);
            && Ordered(Spans(cs), s.startOffset + q.lo, s.startOffset + q.hi)
            && Kept(s, [q], Spans(cs))
            && AllFaithful(content, names, cs, n, maxChars)
  {
    TrimExact(s.text, q.lo, q.hi);
    CoverOne(q);
    var r := Trim(s.text, q.lo, q.hi);
    hide Trim;
    if r.lo < r.hi {
      var c := Range(s.startOffset + r.lo, s.startOffset + r.hi);
      var cs := [ChunkOf(names, s, r, n + 1)];
      assert Spans(cs) == [c];
      CoverOne(c);
      ChunkText(content, names, s, r, n + 1);
      assert Faithful(content, names, cs[0], n + 1, maxChars);
      forall k: nat | q.Has(k) && !IsSpace(s.text[k]) ensures s.startOffset + k in Cover([c]) {
        assert c.Has(s.startOffset + k);
      }
      assert [c][1..] == [];
    }
  }

  lemma JoinRanges(content: string, names: Names, s: Section, q: Range, tail: seq<Range>, cs: seq<Chunk>,
                   rest: seq<Chunk>, n: nat, lo: nat, hi: nat, maxChars: nat)
    requires lo <= q.lo
    requires Ordered(Spans(cs), s.startOffset + q.lo, s.startOffset + q.hi)
    requires Ordered(Spans(rest), s.startOffset + q.hi, s.startOffset + hi)
    requires Kept(s, [q], Spans(cs)) && Kept(s, tail, Spans(rest))
    requires AllFaithful(content, names, cs, n, maxChars) && AllFaithful(content, names, rest, n + |cs|, maxChars)
    ensures Ordered(Spans(cs + rest), s.startOffset + lo, s.startOffset + hi)
    ensures Kept(s, [q] + tail, Spans(cs + rest))
    ensures AllFaithful(content, names, cs + rest, n, maxChars)
  {
    hide Kept, Ordered, Cover, Faithful;
    var a, b, mid := Spans(cs), Spans(rest), s.startOffset + q.hi;
    assert Spans(cs + rest) == a + b;
    TilingAppend(a, s.startOffset + q.lo, mid, mid, b, s.startOffset + hi);
    OrderedWiden(a + b, s.startOffset + lo, s.startOffset + q.lo, s.startOffset + hi);
    JoinKept(s, q, tail, a, b);
    JoinFaithful(content, names, cs, rest, n, maxChars);
  }

  lemma JoinKept(s: Section, q: Range, tail: seq<Range>, a: seq<Range>, b: seq<Range>)
    requires Kept(s, [q], a) && Kept(s, tail, b) && Cover(a + b) == Cover(a) + Cover(b)
    ensures Kept(s, [q] + tail, a + b)
  {
    CoverOne(q);
    CoverCons(q, tail);
    hide Cover, IsSpace;
  }

  lemma JoinFaithful(content: string, names: Names, cs: seq<Chunk>, rest: seq<Chunk>, n: nat, maxChars: nat)
    requires AllFaithful(content, names, cs, n, maxChars) && AllFaithful(content, names, rest, n + |cs|, maxChars)
    ensures AllFaithful(content, names, cs + rest, n, maxChars)
  {
    hide Faithful;
    var all := cs + rest;
    forall i | 0 <= i < |all| ensures Faithful(content, names, all[i], n + i + 1, maxChars) {
      if i >= |cs| {
        var j := i - |cs|;
        assert all[i] == rest[j] && Faithful(content, names, rest[j], n + |cs| + j + 1, maxChars);
      }
    }
  }

  lemma ChunkText(content: string, names: Names, s: Section, r: Range, order: nat)
    requires Cut(content, s) && r.lo <= r.hi <= |s.text|
    ensures var c := ChunkOf(names, s, r, order);
            c.endOffset <= |content| && c.text == content[c.startOffset..c.endOffset]
  {
    SliceOfSlice(content, s.startOffset, s.endOffset, r.lo, r.hi);
  }

  lemma OrderedWiden(rs: seq<Range>, lo: nat, mid: nat, hi: nat)
    requires lo <= mid && Ordered(rs, mid, hi)
    ensures Ordered(rs, lo, hi)
  {
    OrderedBounds(rs, mid, hi);
  }

  ghost function SectionRanges(ss: seq<Section>): (rs: seq<Range>)
    ensures |rs| == |ss| && forall i :: 0 <= i < |ss| ==> rs[i] == Range(ss[i].startOffset, ss[i].endOffset)
  {
    seq(|ss|, i requires 0 <= i < |ss| => Range(ss[i].startOffset, ss[i].endOffset))
  }

  ghost predicate AllCut(content: string, ss: seq<Section>) {
    forall i :: 0 <= i < |ss| ==> Cut(content, ss[i])
  }

  ghost predicate NonSpaceKept(content: string, from: seq<Range>, rs: seq<Range>) {
    forall k :: k in Cover(from) && k < |content| && !IsSpace(content[k]) ==> k in Cover(rs)
  }

  /** The chunk lies inside the section it names. */
  ghost predicate InItsSection(c: Chunk, ss: seq<Section>) {
    exists j :: 0 <= j < |ss| && ss[j].sectionId == c.sectionId
                && ss[j].startOffset <= c.startOffset && c.endOffset <= ss[j].endOffset
  }

  lemma OneSectionTiles(content: string, names: Names, s: Section, n: nat, maxChars: nat)
    requires Cut(content, s) && maxChars >= 1
    ensures var cs := SectionChunks(names, s, TextRanges(s, maxChars), n);
            && Ordered(Spans(cs), s.startOffset, s.endOffset)
            && NonSpaceKept(content, [Range(s.startOffset, s.endOffset)], Spans(cs))
            && AllFaithful(content, names, cs, n, maxChars)
  {
    hide RangesOf;
    hide SectionChunks;
    var ranges := TextRanges(s, maxChars);
    RangesOfTile(s.text, maxChars);
    SectionChunksTile(content, names, s, ranges, n, 0, |s.text|, maxChars);
    WholeSectionKept(content, s, ranges, Spans(SectionChunks(names, s, ranges, n)));
  }

  lemma WholeSectionKept(content: string, s: Section, ranges: seq<Range>, rs: seq<Range>)
    requires Cut(content, s) && NonSpace(s.text, 0, |s.text|) <= Cover(ranges) && Kept(s, ranges, rs)
    ensures NonSpaceKept(content, [Range(s.startOffset, s.endOffset)], rs)
  {
    hide IsSpace, Cover;
    var whole := [Range(s.startOffset, s.endOffset)];
    CoverOne(whole[0]);
    forall k | k in Cover(whole) && k < |content| && !IsSpace(content[k]) ensures k in Cover(rs) {
      assert whole[0].Has(k);
      var j: nat := k - s.startOffset;
      assert s.text[j] == content[k];
      assert j in NonSpace(s.text, 0, |s.text|);
    }
  }

  lemma {:induction false} SectionChunksNamed(names: Names, s: Section, ranges: seq<Range>, n: nat)
    requires InText(s.text, ranges)
    ensures forall i :: 0 <= i < |SectionChunks(names, s, ranges, n)| ==>
                          SectionChunks(names, s, ranges, n)[i].sectionId == s.sectionId
    decreases |ranges|
  {
    if ranges != [] {
      var cs := RangeChunk(names, s, ranges[0], n);
      SectionChunksNamed(names, s, ranges[1..], n + |cs|);
    }
  }

  lemma {:induction false} AllChunksTile(content: string, names: Names, ss: seq<Section>, n: nat, lo: nat, hi: nat,
                                         maxChars: nat)
    requires AllCut(content, ss) && Ordered(SectionRanges(ss), lo, hi) && maxChars >= 1
    ensures var cs := AllChunks(names, ss, maxChars, n);
            && Ordered(Spans(cs), lo, hi)
            && NonSpaceKept(content, SectionRanges(ss), Spans(cs))
            && AllFaithful(content, names, cs, n, maxChars)
    decreases |ss|
  {
    hide TextRanges, SectionChunks;
    if ss == [] {
      assert Cover(SectionRanges(ss)) == {};
    } else {
      var s, tail := ss[0], ss[1..];
      var cs := SectionChunks(names, s, TextRanges(s, maxChars), n);
      var rest := AllChunks(names, tail, maxChars, n + |cs|);
      assert SectionRanges(ss)[1..] == SectionRanges(tail);
      assert lo <= s.startOffset && Ordered(SectionRanges(tail), s.endOffset, hi);
      assert AllChunks(names, ss, maxChars, n) == cs + rest;
      hide Ordered, Cover, Faithful, AllChunks, NonSpaceKept;
      OneSectionTiles(content, names, s, n, maxChars);
      AllChunksTile(content, names, tail, n + |cs|, s.endOffset, hi, maxChars);
      JoinSections(content, names, s, tail, cs, rest, n, lo, hi, maxChars);
      assert [s] + tail == ss;
    }
  }

  lemma JoinSections(content: string, names: Names, s: Section, tail: seq<Section>, cs: seq<Chunk>, rest: seq<Chunk>,
                     n: nat, lo: nat, hi: nat, maxChars: nat)
    requires lo <= s.startOffset
    requires Ordered(Spans(cs), s.startOffset, s.endOffset) && Ordered(Spans(rest), s.endOffset, hi)
    requires NonSpaceKept(content, [Range(s.startOffset, s.endOffset)], Spans(cs))
    requires NonSpaceKept(content, SectionRanges(tail), Spans(rest))
    requires AllFaithful(content, names, cs, n, maxChars) && AllFaithful(content, names, rest, n + |cs|, maxChars)
    ensures Ordered(Spans(cs + rest), lo, hi)
    ensures NonSpaceKept(content, SectionRanges([s] + tail), Spans(cs + rest))
    ensures AllFaithful(content, names, cs + rest, n, maxChars)
  {
    hide Ordered, Cover, IsSpace, Faithful;
    var a, b, r := Spans(cs), Spans(rest), Range(s.startOffset, s.endOffset);
    JoinFaithful(content, names, cs, rest, n, maxChars);
    assert Spans(cs + rest) == a + b;
    TilingAppend(a, s.startOffset, s.endOffset, s.endOffset, b, hi);
    OrderedWiden(a + b, lo, s.startOffset, hi);
    assert SectionRanges([s] + tail) == [r] + SectionRanges(tail);
    CoverOne(r);
    CoverCons(r, SectionRanges(tail));
  }

  lemma {:induction false} AllChunksInSections(names: Names, ss: seq<Section>, n: nat, content: string, maxChars: nat)
    requires AllCut(content, ss) && maxChars >= 1
    ensures forall i :: 0 <= i < |AllChunks(names, ss, maxChars, n)| ==>
                          InItsSection(AllChunks(names, ss, maxChars, n)[i], ss)
    decreases |ss|
  {
    hide TextRanges, SectionChunks;
    if ss != [] {
      var s, tail := ss[0], ss[1..];
      var ranges := TextRanges(s, maxChars);
      var cs := SectionChunks(names, s, ranges, n);
      AllChunksInSections(names, tail, n + |cs|, content, maxChars);
      SectionChunksNamed(names, s, ranges, n);
      OneSectionTiles(content, names, s, n, maxChars);
      OrderedBounds(Spans(cs), s.startOffset, s.endOffset);
      var all := AllChunks(names, ss, maxChars, n);
      forall i | 0 <= i < |all| ensures InItsSection(all[i], ss) {
        if i < |cs| {
          assert Spans(cs)[i] == Range(cs[i].startOffset, cs[i].endOffset);
          assert all[i] == cs[i] && ss[0].sectionId == cs[i].sectionId;
        } else {
          var c := AllChunks(names, tail, maxChars, n + |cs|)[i - |cs|];
          var j :| 0 <= j < |tail| && tail[j].sectionId == c.sectionId
                   && tail[j].startOffset <= c.startOffset && c.endOffset <= tail[j].endOffset;
          assert ss[j + 1] == tail[j];
        }
      }
    }
  }

  /** The sections and chunks of a document. */
  function DocumentChunks(rule: HeadingRule, sectionNames: Names, chunkNames: Names, content: string, maxChars: nat): seq<Chunk>
    requires maxChars >= 1
  {
    SectionsTile(rule, content);
    AllChunks(chunkNames, Numbered(sectionNames, content, DocumentSpans(rule, content)), maxChars, 0)
  }

  /** Every body character, that is, every non-whitespace character outside heading lines, is in exactly
      one chunk (`InExactlyOne` reads this by index); every chunk is the text between its offsets, fits
      the limit, carries the next number and lies in the section it names. */
  lemma ChunksTileDocument(rule: HeadingRule, sectionNames: Names, chunkNames: Names, content: string, maxChars: nat)
    requires maxChars >= 1
    ensures Within(content, DocumentSpans(rule, content))
    ensures var cs := DocumentChunks(rule, sectionNames, chunkNames, content, maxChars);
            var ss := Numbered(sectionNames, content, DocumentSpans(rule, content));
            && Tiling(Spans(cs), Body(rule, content, Lines(content), 0), 0, |content|)
            && AllFaithful(content, chunkNames, cs, 0, maxChars)
            && (forall i :: 0 <= i < |cs| ==> InItsSection(cs[i], ss))
            && (cs == [] <==> Blank(content))
  {
    hide AllChunks;
    hide DocumentSpans;
    var ts := DocumentSpans(rule, content);
    SectionsTile(rule, content);
    var ss := Numbered(sectionNames, content, ts);
    forall i | 0 <= i < |ss|
      ensures ss[i] == SectionOf(sectionNames, content, ts[i], i + 1)
      ensures ss[i].startOffset < ss[i].endOffset && !IsSpace(content[ss[i].startOffset])
    {
      NumberedAt(sectionNames, content, ts, i);
      DocumentSpanStarts(rule, content, i);
    }
    assert SectionRanges(ss) == Ranges(ts);
    AllChunksTile(content, chunkNames, ss, 0, 0, |content|, maxChars);
    AllChunksInSections(chunkNames, ss, 0, content, maxChars);
    BodyNonSpace(rule, content, Lines(content), 0);
    ChunksEmpty(rule, content, ss, AllChunks(chunkNames, ss, maxChars, 0));
  }

  lemma ChunksEmpty(rule: HeadingRule, content: string, ss: seq<Section>, cs: seq<Chunk>)
    requires ss == [] <==> Blank(content)
    requires NonSpaceKept(content, SectionRanges(ss), Spans(cs)) && AllCut(content, ss)
    requires forall i :: 0 <= i < |cs| ==> InItsSection(cs[i], ss)
    requires forall i :: 0 <= i < |ss| ==> ss[i].startOffset < ss[i].endOffset && !IsSpace(content[ss[i].startOffset])
    ensures cs == [] <==> Blank(content)
  {
    assert cs != [] ==> InItsSection(cs[0], ss);
    if ss != [] {
      assert SectionRanges(ss)[0].Has(ss[0].startOffset);
      assert ss[0].startOffset in Cover(Spans(cs));
    }
  }
}
