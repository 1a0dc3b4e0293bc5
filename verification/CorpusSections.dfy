/** Packing corpus blocks into sections: the second half of `split_corpus_sections` in
    brainstack/corpus.py. */
module CorpusSections {
  import opened Corpus
  import opened Sequences
  import opened Text

  datatype Section = Section(index: nat, heading: string, content: string, tokenEstimate: nat)

  function EstimateTokens(text: string): (n: nat) {
    var quarters := (|text| + 3) / 4;
    if quarters < 1 then 1 else quarters
  }

  /** A token for each four characters, begun ones included, and at least one. */
  lemma EstimateExactly(text: string)
    ensures var n := EstimateTokens(text); n >= 1 && |text| <= 4 * n && (n > 1 ==> 4 * (n - 1) < |text|)
  {
  }

  // ----- pieces -----

  function Titled(heading: string, chunks: seq<string>): (ps: seq<Block>)
    ensures |ps| == |chunks|
  {
    seq(|chunks|, i requires 0 <= i < |chunks| => Block(heading, chunks[i]))
  }

  /** All pieces of the blocks, in order, each with the heading of its block. */
  function Pieces(blocks: seq<Block>, maxChars: int): seq<Block> {
    if blocks == [] then []
    else Titled(blocks[0].heading, SplitText(blocks[0].content, maxChars)) + Pieces(blocks[1..], maxChars)
  }

  ghost predicate GoodPiece(p: Block, maxChars: int) {
    p.heading != "" && (|p.content| <= maxChars || |Words(p.content)| == 1)
  }

  ghost predicate GoodPieces(ps: seq<Block>, maxChars: int) {
    forall i :: 0 <= i < |ps| ==> GoodPiece(ps[i], maxChars)
  }

  ghost predicate AllHeaded(bs: seq<Block>) {
    forall i :: 0 <= i < |bs| ==> bs[i].heading != ""
  }

  lemma {:induction false} TitledWords(heading: string, chunks: seq<string>)
    ensures BlockWords(Titled(heading, chunks)) == Labelled(heading, AllWordsOf(chunks))
  {
    hide Words;
    if chunks == [] {
    } else {
      TitledWords(heading, chunks[1..]);
      assert Titled(heading, chunks)[1..] == Titled(heading, chunks[1..]);
      LabelledAppend(heading, Words(chunks[0]), AllWordsOf(chunks[1..]));
    }
  }

  lemma PiecesOfBlock(b: Block, maxChars: int)
    requires b.heading != ""
    ensures BlockWords(Titled(b.heading, SplitText(b.content, maxChars))) == Labelled(b.heading, Words(b.content))
    ensures GoodPieces(Titled(b.heading, SplitText(b.content, maxChars)), maxChars)
  {
    var words := Words(b.content);
    assert [] + words == words;
    PackIsPacking([], words, maxChars);
    hide Words, Join, Pack;
    GreedyPackingOptimal(b.content, maxChars, Pack([], words, maxChars));
    TitledWords(b.heading, SplitText(b.content, maxChars));
  }

  lemma {:induction false} PiecesConserve(blocks: seq<Block>, maxChars: int)
    requires AllHeaded(blocks)
    ensures BlockWords(Pieces(blocks, maxChars)) == BlockWords(blocks)
    ensures GoodPieces(Pieces(blocks, maxChars), maxChars)
  {
    hide Words, SplitText, GoodPiece, Labelled, Titled;
    if blocks != [] {
      var ps := Titled(blocks[0].heading, SplitText(blocks[0].content, maxChars));
      PiecesOfBlock(blocks[0], maxChars);
      PiecesConserve(blocks[1..], maxChars);
      BlockWordsAppend(ps, Pieces(blocks[1..], maxChars));
    }
  }

  // ----- merging pieces under one heading -----

  function FlushSection(fallback: string, heading: string, parts: seq<string>): seq<Block> {
    var body := Normalize(Join(parts));
    if body != "" then [Block(if heading != "" then heading else fallback, body)] else []
  }

  /** The length charged for one more piece: its own, and one for the space if anything is pending. */
  function PieceLen(parts: seq<string>, piece: Block): nat {
    |piece.content| + if parts != [] then 1 else 0
  }

  /** Whether the pending section is closed before the piece. */
  predicate Closes(heading: string, parts: seq<string>, len: nat, piece: Block, maxChars: int) {
    parts != [] && (piece.heading != heading || len + PieceLen(parts, piece) > maxChars)
  }

  /** The sections still to come. The piece that closes a section is charged for a space it does not
      need, so `len` is then one more than the pending text is long. */
  function Merged(fallback: string, heading: string, parts: seq<string>, len: nat, pieces: seq<Block>, maxChars: int): seq<Block>
    decreases |pieces|
  {
    if pieces == [] then FlushSection(fallback, heading, parts)
    else
      var p := pieces[0];
      if Closes(heading, parts, len, p, maxChars) then
        FlushSection(fallback, heading, parts)
        + Merged(fallback, p.heading, [p.content], PieceLen(parts, p), pieces[1..], maxChars)
      else
        Merged(fallback, if parts == [] then p.heading else heading, parts + [p.content],
               len + PieceLen(parts, p), pieces[1..], maxChars)
  }

  /** What the running length counts too much: the space charged to the piece that closed a section. */
  function Overcount(later: bool): nat {
    if later then 1 else 0
  }

  /** The running length is the length of the pending text, and one more once a section has been closed;
      the pending text is within the limit or a single word. */
  ghost predicate Pending(heading: string, parts: seq<string>, len: nat, later: bool, maxChars: int) {
    if parts == [] then len == 0 && !later
    else
      && heading != ""
      && len == |Join(parts)| + Overcount(later)
      && (|Join(parts)| <= maxChars || |Words(Join(parts))| == 1)
  }

  lemma JoinSnoc(parts: seq<string>, part: string)
    ensures Join(parts + [part]) == if parts == [] then part else Join(parts) + " " + part
  {
    assert (parts + [part])[..|parts|] == parts;
  }

  lemma PendingStep(heading: string, parts: seq<string>, len: nat, later: bool, p: Block, maxChars: int)
    requires Pending(heading, parts, len, later, maxChars) && GoodPiece(p, maxChars)
    ensures if Closes(heading, parts, len, p, maxChars) then
              Pending(p.heading, [p.content], PieceLen(parts, p), true, maxChars)
            else
              Pending(if parts == [] then p.heading else heading, parts + [p.content], len + PieceLen(parts, p), later, maxChars)
  {
    JoinSnoc(parts, p.content);
    JoinSnoc([], p.content);
    assert [] + [p.content] == [p.content];
    hide Words, Join;
  }

  /** The pending section is closed before a piece exactly when the piece is under another heading, or its
      text with the piece would be longer than the limit, or just as long and not the first section. */
  lemma ClosesExactly(heading: string, parts: seq<string>, len: nat, later: bool, p: Block, maxChars: int)
    requires Pending(heading, parts, len, later, maxChars) && parts != []
    ensures Closes(heading, parts, len, p, maxChars) <==>
            p.heading != heading || |Join(parts + [p.content])| + Overcount(later) > maxChars
  {
    JoinSnoc(parts, p.content);
    hide Words, Join;
  }

  /** A piece that fits is kept apart exactly when it fits with nothing to spare and the pending section is
      not the first. */
  lemma KeptApartExactly(heading: string, parts: seq<string>, len: nat, later: bool, p: Block, maxChars: int)
    requires Pending(heading, parts, len, later, maxChars) && parts != [] && p.heading == heading
    ensures Closes(heading, parts, len, p, maxChars) && |Join(parts + [p.content])| <= maxChars <==>
            later && |Join(parts + [p.content])| == maxChars
  {
    hide Words, Join;
    ClosesExactly(heading, parts, len, later, p, maxChars);
  }

  lemma FlushedSection(fallback: string, heading: string, parts: seq<string>, len: nat, later: bool, maxChars: int)
    requires Pending(heading, parts, len, later, maxChars)
    ensures BlockWords(FlushSection(fallback, heading, parts)) == Labelled(heading, Words(Join(parts)))
    ensures GoodPieces(FlushSection(fallback, heading, parts), maxChars)
  {
    NormalizeIdempotent(Join(parts));
    WordsOfBlank(Join(parts));
    NormalizeShortens(Join(parts));
    var body := Normalize(Join(parts));
    assert parts == [] ==> Join(parts) == "" && body == "";
    hide Words, Join;
    if body != "" {
      assert [Block(heading, body)][1..] == [];
    } else {
      assert Words(Join(parts)) == [];
    }
  }

  lemma AddedWords(heading: string, parts: seq<string>, p: Block)
    requires parts == [] || p.heading == heading
    ensures Labelled(p.heading, Words(Join(parts + [p.content]))) ==
            Labelled(heading, Words(Join(parts))) + Labelled(p.heading, Words(p.content))
  {
    JoinSnocWords(parts, p.content);
    assert parts == [] ==> Words(Join(parts)) == [];
    hide Words, Join;
    LabelledAppend(p.heading, Words(Join(parts)), Words(p.content));
  }

  /** No word is lost, moved, or put under another heading, and every section is within the limit or a
      single word. */
  lemma {:induction false} MergedConserves(fallback: string, heading: string, parts: seq<string>, len: nat, later: bool,
                                           pieces: seq<Block>, maxChars: int)
    requires Pending(heading, parts, len, later, maxChars) && GoodPieces(pieces, maxChars)
    ensures BlockWords(Merged(fallback, heading, parts, len, pieces, maxChars)) ==
            Labelled(heading, Words(Join(parts))) + BlockWords(pieces)
    ensures GoodPieces(Merged(fallback, heading, parts, len, pieces, maxChars), maxChars)
    decreases |pieces|
  {
    hide Words, Join, Labelled, FlushSection, Pending, GoodPiece, Closes, PieceLen;
    FlushedSection(fallback, heading, parts, len, later, maxChars);
    if pieces == [] {
      assert BlockWords([]) == [];
    } else {
      var p, rest := pieces[0], pieces[1..];
      PendingStep(heading, parts, len, later, p, maxChars);
      if Closes(heading, parts, len, p, maxChars) {
        MergedConserves(fallback, p.heading, [p.content], PieceLen(parts, p), true, rest, maxChars);
        ClosedWords(fallback, heading, parts, len, p, rest, maxChars);
      } else {
        var h := if parts == [] then p.heading else heading;
        MergedConserves(fallback, h, parts + [p.content], len + PieceLen(parts, p), later, rest, maxChars);
        NotClosed(heading, parts, len, p, maxChars);
        AddedWords(heading, parts, p);
      }
    }
  }

  lemma NotClosed(heading: string, parts: seq<string>, len: nat, p: Block, maxChars: int)
    requires !Closes(heading, parts, len, p, maxChars)
    ensures parts == [] || p.heading == heading
  {
  }

  lemma ClosedWords(fallback: string, heading: string, parts: seq<string>, len: nat, p: Block, rest: seq<Block>, maxChars: int)
    requires BlockWords(FlushSection(fallback, heading, parts)) == Labelled(heading, Words(Join(parts)))
    requires BlockWords(Merged(fallback, p.heading, [p.content], PieceLen(parts, p), rest, maxChars)) ==
             Labelled(p.heading, Words(Join([p.content]))) + BlockWords(rest)
    ensures BlockWords(FlushSection(fallback, heading, parts)
                       + Merged(fallback, p.heading, [p.content], PieceLen(parts, p), rest, maxChars)) ==
            Labelled(heading, Words(Join(parts))) + (Labelled(p.heading, Words(p.content)) + BlockWords(rest))
  {
    assert Join([p.content]) == p.content;
    hide Words, Join, Labelled, FlushSection, Merged;
    BlockWordsAppend(FlushSection(fallback, heading, parts),
                     Merged(fallback, p.heading, [p.content], PieceLen(parts, p), rest, maxChars));
  }

  // ----- what the over-count costs -----

  /** Merging by the true length of the text: the open section may become `limit` long, later ones
      `laterLimit`. */
  function ByLength(fallback: string, heading: string, parts: seq<string>, limit: int, laterLimit: int, pieces: seq<Block>): seq<Block>
    decreases |pieces|
  {
    if pieces == [] then FlushSection(fallback, heading, parts)
    else
      var p := pieces[0];
      if parts != [] && (p.heading != heading || |Join(parts + [p.content])| > limit) then
        FlushSection(fallback, heading, parts) + ByLength(fallback, p.heading, [p.content], laterLimit, laterLimit, pieces[1..])
      else
        ByLength(fallback, if parts == [] then p.heading else heading, parts + [p.content], limit, laterLimit, pieces[1..])
  }

  /** The packer merges by true length, with one character less for every section but the first. */
  lemma {:induction false} MergedByLength(fallback: string, heading: string, parts: seq<string>, len: nat, later: bool,
                                          pieces: seq<Block>, maxChars: int)
    requires Pending(heading, parts, len, later, maxChars) && GoodPieces(pieces, maxChars)
    ensures Merged(fallback, heading, parts, len, pieces, maxChars) ==
            ByLength(fallback, heading, parts, maxChars - Overcount(later), maxChars - 1, pieces)
    decreases |pieces|
  {
    hide Words, Join, FlushSection, Pending, GoodPiece, Closes, PieceLen;
    if pieces != [] {
      var p, rest := pieces[0], pieces[1..];
      PendingStep(heading, parts, len, later, p, maxChars);
      if parts != [] {
        ClosesExactly(heading, parts, len, later, p, maxChars);
      } else {
        NothingToClose(heading, len, p, maxChars);
      }
      if Closes(heading, parts, len, p, maxChars) {
        MergedByLength(fallback, p.heading, [p.content], PieceLen(parts, p), true, rest, maxChars);
      } else {
        var h := if parts == [] then p.heading else heading;
        MergedByLength(fallback, h, parts + [p.content], len + PieceLen(parts, p), later, rest, maxChars);
      }
    }
  }

  lemma NothingToClose(heading: string, len: nat, p: Block, maxChars: int)
    ensures !Closes(heading, [], len, p, maxChars)
  {
  }

  /** A later section never fits its next piece with nothing to spare. */
  ghost predicate NeverExact(heading: string, parts: seq<string>, later: bool, pieces: seq<Block>, maxChars: int)
    decreases |pieces|
  {
    pieces == []
    || (var p := pieces[0];
        if parts != [] && (p.heading != heading || |Join(parts + [p.content])| > maxChars) then
          NeverExact(p.heading, [p.content], true, pieces[1..], maxChars)
        else
          (parts != [] && later ==> |Join(parts + [p.content])| < maxChars)
          && NeverExact(if parts == [] then p.heading else heading, parts + [p.content], later, pieces[1..], maxChars))
  }

  ghost predicate NormalPieces(ps: seq<Block>) {
    forall i :: 0 <= i < |ps| ==> ps[i].content != "" && Normalize(ps[i].content) == ps[i].content
  }

  ghost predicate NormalParts(parts: seq<string>) {
    Normalize(Join(parts)) == Join(parts) && (parts != [] ==> Join(parts) != "")
  }

  lemma NormalSnoc(parts: seq<string>, part: string)
    requires NormalParts(parts) && part != "" && Normalize(part) == part
    ensures NormalParts(parts + [part])
  {
    JoinSnoc(parts, part);
    if parts != [] {
      SpacedWords(Join(parts), part);
      assert Words(Join(parts)) != [] && Words(part) != [];
      JoinAppend(Words(Join(parts)), Words(part));
    }
    hide Words, Join;
  }

  lemma NormalFlush(fallback: string, heading: string, parts: seq<string>)
    requires NormalParts(parts) && parts != [] && heading != ""
    ensures FlushSection(fallback, heading, parts) == [Block(heading, Join(parts))]
  {
    hide Words, Join;
  }

  /** The first section to come holds at least what is pending. */
  lemma {:induction false} FirstHolds(fallback: string, heading: string, parts: seq<string>, limit: int, laterLimit: int, pieces: seq<Block>)
    requires NormalParts(parts) && parts != [] && heading != "" && NormalPieces(pieces)
    ensures var r := ByLength(fallback, heading, parts, limit, laterLimit, pieces);
            r != [] && |r[0].content| >= |Join(parts)|
    decreases |pieces|
  {
    hide Words, Join, Normalize, NormalParts;
    NormalFlush(fallback, heading, parts);
    if pieces != [] {
      var p := pieces[0];
      NormalSnoc(parts, p.content);
      JoinSnoc(parts, p.content);
      FirstHolds(fallback, heading, parts + [p.content], limit, laterLimit, pieces[1..]);
    }
  }

  /** The over-count changes the sections exactly when some later section would fit its next piece with
      nothing to spare. */
  lemma {:induction false} OvercountMatters(fallback: string, heading: string, parts: seq<string>, later: bool,
                                            pieces: seq<Block>, maxChars: int)
    requires NormalParts(parts) && NormalPieces(pieces) && (parts != [] ==> heading != "")
    requires forall i :: 0 <= i < |pieces| ==> pieces[i].heading != ""
    ensures ByLength(fallback, heading, parts, maxChars - Overcount(later), maxChars - 1, pieces) ==
            ByLength(fallback, heading, parts, maxChars, maxChars, pieces)
            <==> NeverExact(heading, parts, later, pieces, maxChars)
    decreases |pieces|
  {
    hide Words, Join, Normalize, NormalParts, FlushSection;
    if pieces != [] {
      var p, rest := pieces[0], pieces[1..];
      var h := if parts == [] then p.heading else heading;
      var size := |Join(parts + [p.content])|;
      NormalSnoc(parts, p.content);
      NormalOne(p.content);
      if parts != [] {
        NormalFlush(fallback, heading, parts);
      }
      if parts != [] && (p.heading != heading || size > maxChars) {
        OvercountMatters(fallback, p.heading, [p.content], true, rest, maxChars);
        SameStart(FlushSection(fallback, heading, parts),
                  ByLength(fallback, p.heading, [p.content], maxChars - 1, maxChars - 1, rest),
                  ByLength(fallback, p.heading, [p.content], maxChars, maxChars, rest));
      } else if parts != [] && size > maxChars - Overcount(later) {
        FirstHolds(fallback, h, parts + [p.content], maxChars, maxChars, rest);
        JoinSnoc(parts, p.content);
        var apart := [Block(heading, Join(parts))] + ByLength(fallback, p.heading, [p.content], maxChars - 1, maxChars - 1, rest);
        assert apart[0].content == Join(parts);
        assert ByLength(fallback, heading, parts, maxChars - Overcount(later), maxChars - 1, pieces) == apart;
        assert !NeverExact(heading, parts, later, pieces, maxChars);
      } else {
        OvercountMatters(fallback, h, parts + [p.content], later, rest, maxChars);
      }
    }
  }

  lemma NormalOne(part: string)
    requires part != "" && Normalize(part) == part
    ensures NormalParts([part])
  {
    JoinSnoc([], part);
    assert [] + [part] == [part];
    hide Words, Join, Normalize;
  }

  lemma PiecesOfBlockNormal(b: Block, maxChars: int)
    ensures NormalPieces(Titled(b.heading, SplitText(b.content, maxChars)))
  {
    var words := Words(b.content);
    var ps := Pack([], words, maxChars);
    assert [] + words == words;
    PackIsPacking([], words, maxChars);
    hide Words, Join, Pack;
    JoinedWords(ps, words, maxChars);
    forall i | 0 <= i < |ps| ensures Joined(ps)[i] != "" && Normalize(Joined(ps)[i]) == Joined(ps)[i] {
      assert Fits(ps[i], maxChars);
      JoinNonEmpty(ps[i]);
    }
  }

  lemma {:induction false} PiecesNormal(blocks: seq<Block>, maxChars: int)
    ensures NormalPieces(Pieces(blocks, maxChars))
  {
    hide Normalize, SplitText, Titled;
    if blocks != [] {
      PiecesOfBlockNormal(blocks[0], maxChars);
      PiecesNormal(blocks[1..], maxChars);
    }
  }

  // ----- the whole split -----

  function FirstHeading(title: string): (h: string)
    ensures h != ""
  {
    if Strip(title) != "" then Strip(title) else "Document"
  }

  function Limit(maxChars: int): int {
    if maxChars < 240 then 240 else maxChars
  }

  /** The paragraphs of the document; with none, all its text under the last heading. */
  function DocumentBlocks(pattern: HeadingPattern, title: string, content: string): seq<Block> {
    var scan := ScanLines(pattern, SplitLines(content), FirstHeading(title), []);
    var whole := Normalize(content);
    if scan.blocks != [] then scan.blocks
    else if whole != "" then [Block(scan.heading, whole)]
    else []
  }

  /** The words the sections must hold, each under its heading: those of the paragraph lines, or of the
      whole content when there are none. */
  ghost function DocumentWords(pattern: HeadingPattern, title: string, content: string): seq<(string, string)> {
    var lines := SplitLines(content);
    if LineWords(pattern, lines, FirstHeading(title)) != [] then LineWords(pattern, lines, FirstHeading(title))
    else Labelled(ScanLines(pattern, lines, FirstHeading(title), []).heading, Words(content))
  }

  ghost predicate NonBlank(bs: seq<Block>) {
    forall i :: 0 <= i < |bs| ==> Words(bs[i].content) != []
  }

  lemma FlushedBlock(heading: string, paragraph: seq<string>)
    requires heading != ""
    ensures AllHeaded(FlushParagraph(heading, paragraph)) && NonBlank(FlushParagraph(heading, paragraph))
  {
    NormalizeIdempotent(Join(paragraph));
    WordsOfBlank(Join(paragraph));
    hide Words, Join;
  }

  lemma {:induction false} ScannedBlocks(pattern: HeadingPattern, lines: seq<string>, heading: string, paragraph: seq<string>)
    requires heading != ""
    ensures var s := ScanLines(pattern, lines, heading, paragraph);
            s.heading != "" && AllHeaded(s.blocks) && NonBlank(s.blocks)
    decreases |lines|
  {
    hide Words, Join, Strip, FlushParagraph;
    FlushedBlock(heading, paragraph);
    if lines != [] {
      ScannedBlocks(pattern, lines[1..], heading, paragraph + [Strip(lines[0])]);
      ScannedBlocks(pattern, lines[1..], NextHeading(pattern, lines[0], heading), []);
    }
  }

  lemma FirstBlockWords(bs: seq<Block>)
    requires NonBlank(bs) && bs != []
    ensures BlockWords(bs) != []
  {
    hide Words;
    assert Words(bs[0].content) != [];
  }

  lemma DocumentBlocksConserve(pattern: HeadingPattern, title: string, content: string)
    ensures AllHeaded(DocumentBlocks(pattern, title, content))
    ensures BlockWords(DocumentBlocks(pattern, title, content)) == DocumentWords(pattern, title, content)
  {
    var lines, h := SplitLines(content), FirstHeading(title);
    var scan := ScanLines(pattern, lines, h, []);
    NormalizeIdempotent(content);
    WordsOfBlank(content);
    NoWords(h);
    hide Words, Join, SplitLines, FirstHeading, ScanLines;
    ScannedBlocks(pattern, lines, h, []);
    ScanConserves(pattern, lines, h, []);
    if scan.blocks != [] {
      FirstBlockWords(scan.blocks);
    } else {
      assert BlockWords([]) == [];
      var b := Block(scan.heading, Normalize(content));
      assert [b][1..] == [];
      assert Words(content) == [] ==> Labelled(scan.heading, Words(content)) == [];
    }
  }

  function DocumentSections(pattern: HeadingPattern, title: string, content: string, maxChars: int): seq<Block> {
    Merged(FirstHeading(title), "", [], 0, Pieces(DocumentBlocks(pattern, title, content), Limit(maxChars)), Limit(maxChars))
  }

  /** Sectioning conserves the document: the words of the sections, each under its section's heading, are
      exactly the document's words under their headings, in order; every section is at most
      `max(240, max_chars)` long or a single word. */
  lemma SectionsConserve(pattern: HeadingPattern, title: string, content: string, maxChars: int)
    ensures var bs := DocumentSections(pattern, title, content, maxChars);
            && BlockWords(bs) == DocumentWords(pattern, title, content)
            && forall b :: b in bs ==> b.heading != "" && (|b.content| <= maxChars || |b.content| <= 240 || |Words(b.content)| == 1)
  {
    var blocks, limit := DocumentBlocks(pattern, title, content), Limit(maxChars);
    DocumentBlocksConserve(pattern, title, content);
    NoWords("");
    hide DocumentBlocks, DocumentWords, Words, Join, Labelled;
    PiecesConserve(blocks, limit);
    MergedConserves(FirstHeading(title), "", [], 0, false, Pieces(blocks, limit), limit);
  }

  /** The blocks of a document: its paragraphs under the headings in force, the title, or "Document" without one, being
      the first; with no paragraph, all its words under the last heading. */
  lemma BlocksExactly(pattern: HeadingPattern, title: string, content: string) returns (runs: seq<(nat, nat)>)
    ensures var lines, heading0 := SplitLines(content), if Blank(title) then "Document" else Strip(title);
            var blocks := DocumentBlocks(pattern, title, content);
            && Runs(pattern, lines, 0, runs)
            && if runs != [] then BlocksOf(pattern, lines, heading0, runs, blocks)
               else if Blank(content) then blocks == []
               else blocks == [Block(InForce(pattern, lines, |lines|, heading0), Join(Words(content)))]
  {
    StripBlank(title);
    WordsOfBlank(content);
    JoinNonEmpty(Words(content));
    hide Words, Join, Strip, Blank, Runs, InForce, SplitLines;
    runs := ScanExactly(pattern, SplitLines(content), FirstHeading(title));
    hide BlockOf, ScanLines;
  }

  /** The sections of a document are those of a packer that merges by true length up to the limit exactly
      when no section but the first would fit its next piece with nothing to spare. */
  lemma SectionsByLength(pattern: HeadingPattern, title: string, content: string, maxChars: int)
    ensures var pieces, limit := Pieces(DocumentBlocks(pattern, title, content), Limit(maxChars)), Limit(maxChars);
            DocumentSections(pattern, title, content, maxChars) == ByLength(FirstHeading(title), "", [], limit, limit, pieces)
            <==> NeverExact("", [], false, pieces, limit)
  {
    var blocks, limit := DocumentBlocks(pattern, title, content), Limit(maxChars);
    DocumentBlocksConserve(pattern, title, content);
    NoParts();
    hide DocumentBlocks, Words, Join, Labelled, FirstHeading, Normalize;
    PiecesConserve(blocks, limit);
    PiecesNormal(blocks, limit);
    MergedByLength(FirstHeading(title), "", [], 0, false, Pieces(blocks, limit), limit);
    PiecesHeaded(blocks, limit);
    OvercountMatters(FirstHeading(title), "", [], false, Pieces(blocks, limit), limit);
  }

  lemma NoParts()
    ensures NormalParts([])
  {
  }

  lemma PiecesHeaded(blocks: seq<Block>, maxChars: int)
    requires GoodPieces(Pieces(blocks, maxChars), maxChars)
    ensures forall i :: 0 <= i < |Pieces(blocks, maxChars)| ==> Pieces(blocks, maxChars)[i].heading != ""
  {
    hide Pieces, Words;
    var ps := Pieces(blocks, maxChars);
    assert forall i :: 0 <= i < |ps| ==> GoodPiece(ps[i], maxChars);
  }

  // ----- a document on which the over-count matters -----

  lemma WordBody(w: string, rest: string)
    requires IsWord(w)
    ensures LineBody(w + "\n" + rest) == |w|
  {
    NoBreaks(w);
    hide IsSpace, LineBody;
    var s := w + "\n" + rest;
    var b := LineBody(s);
    assert s[|w|] == '\n' && forall k :: 0 <= k < |w| ==> s[k] == w[k];
    assert forall k :: 0 <= k < |w| ==> !IsLineBreak(s[k]);
  }

  lemma WordLine(w: string, rest: string)
    requires IsWord(w)
    ensures Lines(w + "\n" + rest) == [w + "\n"] + Lines(rest) && Chomp(w + "\n") == w
  {
    WordBody(w, rest);
    WordBody(w, "");
    hide IsSpace, IsWord, IsLineBreak, LineBody;
    var s := w + "\n" + rest;
    assert s[|w|] == '\n' && w + "\n" + "" == w + "\n";
    assert s[..|w| + 1] == w + "\n" && s[|w| + 1..] == rest;
  }

  lemma NoBreaks(w: string)
    requires IsWord(w)
    ensures forall k :: 0 <= k < |w| ==> !IsLineBreak(w[k])
  {
    hide IsSpace, IsLineBreak;
    forall k | 0 <= k < |w| ensures !IsLineBreak(w[k]) {
      SpaceFacts(w[k]);
    }
  }

  lemma EmptyLine(rest: string)
    ensures Lines("\n" + rest) == ["\n"] + Lines(rest) && Chomp("\n") == ""
  {
    var s := "\n" + rest;
    assert s[..1] == "\n" && s[1..] == rest;
  }

  lemma LastLine(w: string)
    requires IsWord(w)
    ensures Lines(w) == [w] && Chomp(w) == w
  {
    NoBreaks(w);
    hide IsSpace;
    assert w[..|w|] == w && w[|w|..] == "";
  }

  /** Three one-word paragraphs. */
  function ThreeParagraphs(a: string, b: string, c: string): string {
    a + "\n" + ("\n" + (b + "\n" + ("\n" + c)))
  }

  lemma ThreeParagraphLines(a: string, b: string, c: string)
    requires IsWord(a) && IsWord(b) && IsWord(c)
    ensures SplitLines(ThreeParagraphs(a, b, c)) == [a, "", b, "", c]
  {
    hide IsWord, Chomp, Lines;
    var s4 := "\n" + c;
    var s3 := b + "\n" + s4;
    var s2 := "\n" + s3;
    WordLine(a, s2);
    EmptyLine(s3);
    WordLine(b, s4);
    EmptyLine(c);
    LastLine(c);
    assert Lines(ThreeParagraphs(a, b, c)) == [a + "\n"] + (["\n"] + ([b + "\n"] + (["\n"] + [c])));
    hide ThreeParagraphs;
  }

  /** A word that is not a heading is a paragraph, a block and a piece of its own. */
  lemma WordAlone(pattern: HeadingPattern, heading: string, w: string, maxChars: int)
    requires IsWord(w) && pattern(w).None?
    ensures IsPlain(pattern, w) && Strip(w) == w && w != "" && Normalize(w) == w
    ensures FlushParagraph(heading, [w]) == [Block(heading, w)]
    ensures SplitText(w, maxChars) == [w]
    ensures !IsPlain(pattern, "") && NextHeading(pattern, "", heading) == heading && FlushParagraph(heading, []) == []
  {
    StripFixed(w);
    WordsOfWord(w);
    assert Join([w]) == w && Words("") == [] && Join([]) == "" && Strip("") == "";
    hide Words, Join, Strip;
    assert [w][1..] == [] && Pack([], [w], maxChars) == Pack([] + [w], [], maxChars);
    assert [] + [w] == [w];
  }

  lemma ThreeBlocks(pattern: HeadingPattern, title: string, a: string, b: string, c: string)
    requires IsWord(a) && IsWord(b) && IsWord(c) && pattern(a).None? && pattern(b).None? && pattern(c).None?
    ensures var h := FirstHeading(title);
            DocumentBlocks(pattern, title, ThreeParagraphs(a, b, c)) == [Block(h, a), Block(h, b), Block(h, c)]
  {
    hide SplitLines, IsWord, IsPlain, Strip, FlushParagraph, NextHeading, FirstHeading, Normalize, ThreeParagraphs, ScanLines;
    ThreeParagraphLines(a, b, c);
    ThreeScanned(pattern, FirstHeading(title), a, b, c);
  }

  lemma ThreeScanned(pattern: HeadingPattern, h: string, a: string, b: string, c: string)
    requires IsWord(a) && IsWord(b) && IsWord(c) && pattern(a).None? && pattern(b).None? && pattern(c).None?
    ensures ScanLines(pattern, [a, "", b, "", c], h, []).blocks == [Block(h, a), Block(h, b), Block(h, c)]
  {
    hide IsWord, IsPlain, Strip, FlushParagraph, NextHeading, Normalize, ScanLines, SplitText;
    WordAlone(pattern, h, a, 0);
    WordAlone(pattern, h, b, 0);
    WordAlone(pattern, h, c, 0);
    ScanEnd(pattern, h, c);
    ScanWord(pattern, h, c, []);
    ScanGap(pattern, h, b, [c]);
    ScanWord(pattern, h, b, ["", c]);
    ScanGap(pattern, h, a, [b, "", c]);
    ScanWord(pattern, h, a, ["", b, "", c]);
    assert [c] + [] == [c] && [""] + [c] == ["", c] && [b] + ["", c] == [b, "", c];
    assert [""] + [b, "", c] == ["", b, "", c] && [a] + ["", b, "", c] == [a, "", b, "", c];
  }

  lemma ScanEnd(pattern: HeadingPattern, h: string, w: string)
    ensures ScanLines(pattern, [], h, [w]).blocks == FlushParagraph(h, [w])
  {
  }

  lemma ScanWord(pattern: HeadingPattern, h: string, w: string, rest: seq<string>)
    requires IsPlain(pattern, w) && Strip(w) == w
    ensures ScanLines(pattern, [w] + rest, h, []) == ScanLines(pattern, rest, h, [w])
  {
    hide IsPlain, Strip, FlushParagraph;
    assert ([w] + rest)[1..] == rest && [] + [w] == [w];
  }

  lemma ScanGap(pattern: HeadingPattern, h: string, w: string, rest: seq<string>)
    requires !IsPlain(pattern, "") && NextHeading(pattern, "", h) == h
    ensures ScanLines(pattern, [""] + rest, h, [w]).blocks == FlushParagraph(h, [w]) + ScanLines(pattern, rest, h, []).blocks
  {
    hide IsPlain, Strip, FlushParagraph, NextHeading;
    assert ([""] + rest)[1..] == rest;
  }

  /** The over-count costs a section: of three paragraphs the last two are exactly as long as the limit
      together and are kept apart, though they would fit in one section. */
  lemma OvercountSplits(pattern: HeadingPattern, title: string, a: string, b: string, c: string, maxChars: int)
    requires IsWord(a) && IsWord(b) && IsWord(c) && pattern(a).None? && pattern(b).None? && pattern(c).None?
    requires |a| + 1 + |b| > Limit(maxChars) && |b| + 1 + |c| == Limit(maxChars)
    ensures var h := FirstHeading(title);
            DocumentSections(pattern, title, ThreeParagraphs(a, b, c), maxChars) == [Block(h, a), Block(h, b), Block(h, c)]
    ensures |b + " " + c| == Limit(maxChars)
  {
    var h, limit := FirstHeading(title), Limit(maxChars);
    ThreeBlocks(pattern, title, a, b, c);
    WordAlone(pattern, h, a, limit);
    WordAlone(pattern, h, b, limit);
    WordAlone(pattern, h, c, limit);
    hide DocumentBlocks, FirstHeading, IsWord, IsPlain, FlushParagraph, NextHeading, Strip, SplitText, ThreeParagraphs, Words;
    ThreePieces(h, a, b, c, limit);
    hide Pieces, Limit;
    ThreeSections(h, a, b, c, limit);
  }

  lemma ThreePieces(h: string, a: string, b: string, c: string, limit: int)
    requires SplitText(a, limit) == [a] && SplitText(b, limit) == [b] && SplitText(c, limit) == [c]
    ensures Pieces([Block(h, a), Block(h, b), Block(h, c)], limit) == [Block(h, a), Block(h, b), Block(h, c)]
  {
    hide SplitText;
    var blocks := [Block(h, a), Block(h, b), Block(h, c)];
    assert blocks[1..] == [Block(h, b), Block(h, c)] && blocks[1..][1..] == [Block(h, c)] && [Block(h, c)][1..] == [];
    assert Titled(h, [a]) == [Block(h, a)] && Titled(h, [b]) == [Block(h, b)] && Titled(h, [c]) == [Block(h, c)];
    assert Pieces([Block(h, c)], limit) == [Block(h, c)];
    assert Pieces([Block(h, b), Block(h, c)], limit) == [Block(h, b), Block(h, c)];
  }

  lemma ThreeSections(h: string, a: string, b: string, c: string, limit: int)
    requires h != "" && a != "" && b != "" && c != ""
    requires Normalize(a) == a && Normalize(b) == b && Normalize(c) == c
    requires |a| + 1 + |b| > limit && |b| + 1 + |c| == limit
    ensures Merged(h, "", [], 0, [Block(h, a), Block(h, b), Block(h, c)], limit) == [Block(h, a), Block(h, b), Block(h, c)]
  {
    hide Words;
    var x, y, z := Block(h, a), Block(h, b), Block(h, c);
    assert [x, y, z][1..] == [y, z] && [y, z][1..] == [z] && [z][1..] == [];
    assert Join([a]) == a && Join([b]) == b && Join([c]) == c;
    assert [] + [a] == [a];
    hide Join, Normalize;
    assert Merged(h, h, [c], |c| + 1, [], limit) == [z];
    assert Merged(h, h, [b], |b| + 1, [z], limit) == [y] + [z];
    assert Merged(h, h, [a], |a|, [y, z], limit) == [x] + ([y] + [z]);
  }

  /** Paragraphs of 120, 120 and 119 letters, at the smallest limit. */
  lemma OvercountAt240(pattern: HeadingPattern, title: string)
    requires pattern(Letters(120)).None? && pattern(Letters(119)).None?
    ensures |DocumentSections(pattern, title, ThreeParagraphs(Letters(120), Letters(120), Letters(119)), 0)| == 3
    ensures |Letters(120) + " " + Letters(119)| == Limit(0) == 240
  {
    SpaceFacts('x');
    hide IsSpace, DocumentSections, ThreeParagraphs, Letters, FirstHeading;
    OvercountSplits(pattern, title, Letters(120), Letters(120), Letters(119), 0);
  }

  // ----- the method -----

  /** The sections so far and those still to come are all sections. */
  ghost predicate Packing(fallback: string, heading: string, parts: seq<string>, len: nat, pieces: seq<Block>, maxChars: int,
                          done: seq<Block>, all: seq<Block>) {
    all == done + Merged(fallback, heading, parts, len, pieces, maxChars)
  }

  method PackPieces(fallback: string, blocks: seq<Block>, maxChars: int) returns (sections: seq<Block>)
    ensures sections == Merged(fallback, "", [], 0, Pieces(blocks, maxChars), maxChars)
  {
    hide FlushSection, SplitText, Merged, Closes, PieceLen, Titled;
    ghost var all := Merged(fallback, "", [], 0, Pieces(blocks, maxChars), maxChars);
    sections := [];
    var pendingHeading, pendingParts: seq<string>, pendingLen: nat := "", [], 0;
    assert blocks[0..] == blocks;
    for i := 0 to |blocks|
      invariant Packing(fallback, pendingHeading, pendingParts, pendingLen, Pieces(blocks[i..], maxChars), maxChars, sections, all)
    {
      Uncons(blocks, i);
      var chunks := SplitLongText(blocks[i].content, maxChars);
      sections, pendingHeading, pendingParts, pendingLen :=
        PackBlock(fallback, Titled(blocks[i].heading, chunks), maxChars, sections, pendingHeading, pendingParts, pendingLen,
                  Pieces(blocks[i + 1..], maxChars), all);
    }
    PackingEnds(fallback, pendingHeading, pendingParts, pendingLen, maxChars, sections, all);
    assert blocks[|blocks|..] == [];
    sections := sections + FlushSection(fallback, pendingHeading, pendingParts);
  }

  lemma PackingEnds(fallback: string, heading: string, parts: seq<string>, len: nat, maxChars: int, done: seq<Block>, all: seq<Block>)
    ensures Packing(fallback, heading, parts, len, [], maxChars, done, all) ==> all == done + FlushSection(fallback, heading, parts)
  {
    hide FlushSection;
  }

  /** The inner loop: the pieces of one block. */
  method PackBlock(fallback: string, pieces: seq<Block>, maxChars: int, sections: seq<Block>, heading: string, parts: seq<string>,
                   len: nat, ghost later: seq<Block>, ghost all: seq<Block>)
    returns (sections': seq<Block>, pendingHeading: string, pendingParts: seq<string>, pendingLen: nat)
    requires Packing(fallback, heading, parts, len, pieces + later, maxChars, sections, all)
    ensures Packing(fallback, pendingHeading, pendingParts, pendingLen, later, maxChars, sections', all)
  {
    hide FlushSection, Packing, Closes, PieceLen;
    sections', pendingHeading, pendingParts, pendingLen := sections, heading, parts, len;
    assert pieces[0..] == pieces;
    for j := 0 to |pieces|
      invariant Packing(fallback, pendingHeading, pendingParts, pendingLen, pieces[j..] + later, maxChars, sections', all)
    {
      PackingStep(fallback, pendingHeading, pendingParts, pendingLen, pieces, j, later, maxChars, sections', all);
      var piece := pieces[j];
      var pieceLen := PieceLen(pendingParts, piece);
      if Closes(pendingHeading, pendingParts, pendingLen, piece, maxChars) {
        sections' := sections' + FlushSection(fallback, pendingHeading, pendingParts);
        pendingHeading, pendingParts, pendingLen := "", [], 0;
      }
      if pendingParts == [] {
        pendingHeading := piece.heading;
      }
      pendingParts := pendingParts + [piece.content];
      pendingLen := pendingLen + pieceLen;
    }
    assert pieces[|pieces|..] + later == later;
  }

  lemma PackingStep(fallback: string, heading: string, parts: seq<string>, len: nat, pieces: seq<Block>, j: nat,
                    later: seq<Block>, maxChars: int, done: seq<Block>, all: seq<Block>)
    requires j < |pieces| && Packing(fallback, heading, parts, len, pieces[j..] + later, maxChars, done, all)
    ensures var p, rest := pieces[j], pieces[j + 1..] + later;
            if Closes(heading, parts, len, p, maxChars) then
              Packing(fallback, p.heading, [] + [p.content], 0 + PieceLen(parts, p), rest, maxChars,
                      done + FlushSection(fallback, heading, parts), all)
            else
              Packing(fallback, if parts == [] then p.heading else heading, parts + [p.content],
                      len + PieceLen(parts, p), rest, maxChars, done, all)
  {
    hide FlushSection, Closes, PieceLen;
    var p, rest := pieces[j], pieces[j + 1..] + later;
    assert (pieces[j..] + later)[1..] == rest;
    assert [] + [p.content] == [p.content];
    AppendMany(done, FlushSection(fallback, heading, parts),
               Merged(fallback, p.heading, [p.content], PieceLen(parts, p), rest, maxChars));
  }

  method SplitCorpusSections(pattern: HeadingPattern, title: string, content: string, maxChars: int)
    returns (sections: seq<Section>)
    ensures var bs := DocumentSections(pattern, title, content, maxChars);
            && |sections| == |bs|
            && forall i :: 0 <= i < |bs| ==>
                 sections[i] == Section(i, bs[i].heading, bs[i].content, EstimateTokens(bs[i].content))
  {
    hide Merged, Pieces, ScanLines, Normalize, Strip, SplitLines;
    var blocks, heading := ScanBlocks(pattern, SplitLines(content), FirstHeading(title));
    if blocks == [] {
      var normalized := Normalize(content);
      if normalized != "" {
        blocks := [Block(heading, normalized)];
      }
    }
    assert blocks == DocumentBlocks(pattern, title, content);
    var bs := PackPieces(FirstHeading(title), blocks, Limit(maxChars));
    sections := [];
    for i := 0 to |bs|
      invariant |sections| == i
      invariant forall k :: 0 <= k < i ==>
                  sections[k] == Section(k, bs[k].heading, bs[k].content, EstimateTokens(bs[k].content))
    {
      sections := sections + [Section(i, bs[i].heading, bs[i].content, EstimateTokens(bs[i].content))];
    }
  }
}
