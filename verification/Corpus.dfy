/** Corpus sectioning: the greedy word packer `_split_long_text` and `split_corpus_sections` of
    brainstack/corpus.py. */
module Corpus {
  import opened Results
  import opened Sequences
  import opened Text

  // ----- the word packer -----

  /** The groups of words packed from here on, with `current` the group being filled. */
  function Pack(current: seq<string>, words: seq<string>, maxChars: int): seq<seq<string>>
    decreases |words|
  {
    if words == [] then (if current == [] then [] else [current])
    else if current != [] && JoinLen(current) + 1 + |words[0]| > maxChars then
      [current] + Pack([words[0]], words[1..], maxChars)
    else Pack(current + [words[0]], words[1..], maxChars)
  }

  function Joined(groups: seq<seq<string>>): (r: seq<string>)
    ensures |r| == |groups|
  {
    seq(|groups|, i requires 0 <= i < |groups| => Join(groups[i]))
  }

  function SplitText(text: string, maxChars: int): seq<string> {
    Joined(Pack([], Words(text), maxChars))
  }

  method SplitLongText(text: string, maxChars: int) returns (chunks: seq<string>)
    ensures chunks == SplitText(text, maxChars)
  {
    hide Join, Words;
    var words := Words(text);
    if words == [] {
      return [];
    }
    ghost var done: seq<seq<string>> := [];
    ghost var all := Pack([], words, maxChars);
    chunks := [];
    var current: seq<string> := [];
    var currentLen := 0;
    assert words[0..] == words && JoinLen([]) == 0 && Joined([]) == [] && forall c :: c != [] ==> Pack(c, [], maxChars) == [c];
    hide Pack, JoinLen, Joined;
    for i := 0 to |words|
      invariant currentLen == JoinLen(current)
      invariant current == [] <==> i == 0
      invariant chunks == Joined(done)
      invariant all == done + Pack(current, words[i..], maxChars)
    {
      PackStep(current, words, i, maxChars);
      var word := words[i];
      var addition := |word| + if current != [] then 1 else 0;
      if current != [] && currentLen + addition > maxChars {
        AppendOne(done, current, Pack([word], words[i + 1..], maxChars));
        JoinedSnoc(done, current);
        chunks := chunks + [Join(current)];
        done := done + [current];
        current := [word];
        currentLen := |word|;
      } else {
        current := current + [word];
        currentLen := currentLen + addition;
      }
    }
    assert words[|words|..] == [];
    JoinedSnoc(done, current);
    chunks := chunks + [Join(current)];
  }

  lemma JoinedSnoc(groups: seq<seq<string>>, g: seq<string>)
    ensures Joined(groups + [g]) == Joined(groups) + [Join(g)]
  {
    hide Join;
  }

  /** One word more, and how long the group and a group of its own then are. */
  lemma PackStep(current: seq<string>, words: seq<string>, i: nat, maxChars: int)
    requires i < |words|
    ensures Pack(current, words[i..], maxChars) ==
            if current != [] && JoinLen(current) + 1 + |words[i]| > maxChars then [current] + Pack([words[i]], words[i + 1..], maxChars)
            else Pack(current + [words[i]], words[i + 1..], maxChars)
    ensures JoinLen([words[i]]) == |words[i]|
    ensures JoinLen(current + [words[i]]) == JoinLen(current) + |words[i]| + if current != [] then 1 else 0
  {
    hide Join;
    Uncons(words, i);
    assert (current + [words[i]])[..|current|] == current;
  }

  /** A group may exceed the limit only when it is a single word. */
  predicate Fits(group: seq<string>, maxChars: int) {
    group != [] && (|group| == 1 || JoinLen(group) <= maxChars)
  }

  /** An order-preserving split of `words` under the packer's rule. */
  ghost predicate Packing(groups: seq<seq<string>>, words: seq<string>, maxChars: int) {
    Flatten(groups) == words && forall i :: 0 <= i < |groups| ==> Fits(groups[i], maxChars)
  }

  lemma PackingCons(g: seq<string>, groups: seq<seq<string>>, words: seq<string>, maxChars: int)
    requires Fits(g, maxChars) && Packing(groups, words, maxChars)
    ensures Packing([g] + groups, g + words, maxChars)
  {
    hide Fits;
    FlattenCons(g, groups);
  }

  lemma {:induction false} PackIsPacking(current: seq<string>, words: seq<string>, maxChars: int)
    requires current == [] || Fits(current, maxChars)
    ensures Packing(Pack(current, words, maxChars), current + words, maxChars)
    decreases |words|
  {
    hide Join;
    if words == [] {
      assert current + words == current;
      FlattenCons(current, []);
      assert [current] + [] == [current];
    } else {
      var w, rest := words[0], words[1..];
      assert (current + [w])[..|current|] == current;
      if current != [] && JoinLen(current) + 1 + |w| > maxChars {
        PackIsPacking([w], rest, maxChars);
        PackingCons(current, Pack([w], rest, maxChars), [w] + rest, maxChars);
        assert [w] + rest == words;
      } else {
        PackIsPacking(current + [w], rest, maxChars);
        assert current + [w] + rest == current + words;
      }
    }
  }

  lemma JoinLenSuffix(ws: seq<string>, k: nat)
    requires k < |ws|
    ensures JoinLen(ws[k..]) <= JoinLen(ws)
  {
    hide Join, JoinLen;
    if k > 0 {
      JoinAppend(ws[..k], ws[k..]);
      assert ws[..k] + ws[k..] == ws;
    } else {
      assert ws[k..] == ws;
    }
  }

  /** Forgetting the first `k` words never needs more groups. */
  lemma {:induction false} DropWords(groups: seq<seq<string>>, words: seq<string>, k: nat, maxChars: int)
    returns (r: seq<seq<string>>)
    requires Packing(groups, words, maxChars) && k <= |words|
    ensures Packing(r, words[k..], maxChars) && |r| <= |groups|
    decreases |groups|
  {
    if k == 0 {
      r := groups;
      assert words[0..] == words;
    } else {
      var g, rest := groups[0], groups[1..];
      var tail := Flatten(rest);
      assert words == g + tail && Packing(rest, tail, maxChars);
      if k >= |g| {
        r := DropWords(rest, tail, k - |g|, maxChars);
        assert words[k..] == tail[k - |g|..];
      } else {
        r := [g[k..]] + rest;
        JoinLenSuffix(g, k);
        PackingCons(g[k..], rest, tail, maxChars);
        assert words[k..] == g[k..] + tail;
      }
    }
  }

  /** A group that fits is no longer than a prefix of the text that does not. */
  lemma FirstGroupShort(g: seq<string>, current: seq<string>, w: string, all: seq<string>, maxChars: int)
    requires Fits(g, maxChars) && g <= all && current + [w] <= all && current != []
    requires JoinLen(current) + 1 + |w| > maxChars
    ensures |g| <= |current|
  {
    hide Join;
    var longer := current + [w];
    assert longer[..|current|] == current;
    assert JoinLen(longer) == JoinLen(current) + 1 + |w|;
    hide JoinLen;
    if |longer| <= |g| {
      assert g[..|longer|] == longer;
      JoinLenPrefix(g, |longer|);
    }
  }

  /** Greedy is optimal: no order-preserving split under the same rule has fewer groups. */
  lemma {:induction false} PackOptimal(current: seq<string>, words: seq<string>, maxChars: int, groups: seq<seq<string>>)
    requires Packing(groups, current + words, maxChars)
    ensures |Pack(current, words, maxChars)| <= |groups|
    decreases |words|
  {
    hide Join, JoinLen;
    if words == [] {
      assert current != [] ==> groups != [];
    } else {
      var w, rest := words[0], words[1..];
      assert words == [w] + rest;
      AppendMany(current, [w], rest);
      if current != [] && JoinLen(current) + 1 + |w| > maxChars {
        var shorter := AfterFirstGroup(current, w, rest, maxChars, groups);
        PackOptimal([w], rest, maxChars, shorter);
      } else {
        PackOptimal(current + [w], rest, maxChars, groups);
      }
    }
  }

  /** When the next word does not fit, any split needs one group more than it takes from that word on. */
  lemma AfterFirstGroup(current: seq<string>, w: string, rest: seq<string>, maxChars: int, groups: seq<seq<string>>)
    returns (shorter: seq<seq<string>>)
    requires Packing(groups, current + ([w] + rest), maxChars)
    requires current != [] && JoinLen(current) + 1 + |w| > maxChars
    ensures Packing(shorter, [w] + rest, maxChars) && |shorter| < |groups|
  {
    hide Join, JoinLen;
    var all, g := current + ([w] + rest), groups[0];
    assert all == g + Flatten(groups[1..]);
    assert current + [w] <= all by { AppendMany(current, [w], rest); }
    FirstGroupShort(g, current, w, all, maxChars);
    shorter := DropWords(groups[1..], Flatten(groups[1..]), |current| - |g|, maxChars);
    assert Flatten(groups[1..]) == all[|g|..];
    assert all[|g|..][|current| - |g|..] == all[|current|..] == [w] + rest;
  }

  /** The words of the text survive in order: those of each chunk, put together, are the text's. */
  lemma {:induction false} JoinedWords(groups: seq<seq<string>>, words: seq<string>, maxChars: int)
    requires Packing(groups, words, maxChars) && AllWords(words)
    ensures AllWordsOf(Joined(groups)) == words
    ensures forall i :: 0 <= i < |groups| ==> Words(Joined(groups)[i]) == groups[i] && AllWords(groups[i])
    decreases |groups|
  {
    hide Words, Join, Fits, IsWord;
    if groups != [] {
      var g, rest := groups[0], groups[1..];
      assert words == g + Flatten(rest);
      assert AllWords(g) by { forall k | 0 <= k < |g| ensures IsWord(g[k]) { assert words[k] == g[k]; } }
      assert AllWords(Flatten(rest)) by {
        forall k | 0 <= k < |Flatten(rest)| ensures IsWord(Flatten(rest)[k]) { assert words[|g| + k] == Flatten(rest)[k]; }
      }
      WordsOfJoin(g);
      JoinedWords(rest, Flatten(rest), maxChars);
      assert Joined(groups)[1..] == Joined(rest);
      forall i | 0 <= i < |groups| ensures Words(Joined(groups)[i]) == groups[i] && AllWords(groups[i]) {
        assert i > 0 ==> Joined(groups)[i] == Joined(rest)[i - 1] && groups[i] == rest[i - 1];
      }
    }
  }

  /** The words of a list of texts, in order. */
  ghost function AllWordsOf(texts: seq<string>): seq<string> {
    if texts == [] then [] else Words(texts[0]) + AllWordsOf(texts[1..])
  }

  /** The packer keeps every word in order, never makes an over-long chunk unless one word is, and no
      split of the same words under that rule is shorter. */
  lemma GreedyPackingOptimal(text: string, maxChars: int, groups: seq<seq<string>>)
    requires Packing(groups, Words(text), maxChars)
    ensures AllWordsOf(SplitText(text, maxChars)) == Words(text)
    ensures forall i :: 0 <= i < |SplitText(text, maxChars)| ==>
                          var c := SplitText(text, maxChars)[i]; |c| <= maxChars || |Words(c)| == 1
    ensures |SplitText(text, maxChars)| <= |groups|
  {
    hide Words, Join;
    var words := Words(text);
    var ps := Pack([], words, maxChars);
    assert [] + words == words;
    PackIsPacking([], words, maxChars);
    PackOptimal([], words, maxChars, groups);
    JoinedWords(ps, words, maxChars);
    hide Pack;
    forall i | 0 <= i < |ps| ensures |Joined(ps)[i]| <= maxChars || |Words(Joined(ps)[i])| == 1 {
      assert Fits(ps[i], maxChars);
    }
  }

  // ----- blocks -----

  /** What the heading pattern captures on a raw line, if it matches. */
  type HeadingPattern = string -> Option<string>

  datatype Block = Block(heading: string, content: string)

  datatype Scan = Scan(blocks: seq<Block>, heading: string)

  function FlushParagraph(heading: string, lines: seq<string>): seq<Block> {
    var paragraph := Normalize(Join(lines));
    if paragraph != "" then [Block(heading, paragraph)] else []
  }

  /** A line of paragraph text: neither blank nor a heading. */
  predicate IsPlain(pattern: HeadingPattern, raw: string) {
    Strip(raw) != "" && pattern(raw).None?
  }

  /** The heading in force after a line that is not paragraph text. */
  function NextHeading(pattern: HeadingPattern, raw: string, heading: string): string {
    if Strip(raw) == "" || pattern(raw).None? || Normalize(pattern(raw).value) == "" then heading
    else Normalize(pattern(raw).value)
  }

  /** The blocks made of the lines still to read, and the heading at the end. */
  function ScanLines(pattern: HeadingPattern, lines: seq<string>, heading: string, paragraph: seq<string>): Scan
    decreases |lines|
  {
    if lines == [] then Scan(FlushParagraph(heading, paragraph), heading)
    else if IsPlain(pattern, lines[0]) then ScanLines(pattern, lines[1..], heading, paragraph + [Strip(lines[0])])
    else
      var s := ScanLines(pattern, lines[1..], NextHeading(pattern, lines[0], heading), []);
      Scan(FlushParagraph(heading, paragraph) + s.blocks, s.heading)
  }

  /** The lines of `str.splitlines()`. */
  function SplitLines(content: string): (ls: seq<string>) {
    var lines := Lines(content);
    seq(|lines|, i requires 0 <= i < |lines| => Chomp(lines[i]))
  }

  /** Each line of the text without its line break: the longest part in front of one. */
  lemma SplitLinesExactly(content: string)
    ensures Concat(Lines(content)) == content && |SplitLines(content)| == |Lines(content)|
    ensures forall i :: 0 <= i < |SplitLines(content)| ==>
              var line, shown := Lines(content)[i], SplitLines(content)[i];
              && IsLine(line, i == |Lines(content)| - 1)
              && shown <= line && (shown != line ==> IsLineBreak(line[|shown|]))
              && forall k :: 0 <= k < |shown| ==> !IsLineBreak(shown[k])
  {
    LinesConcat(content);
    LinesExactly(content);
    hide IsLine, IsLineBreak, Lines, LineBody;
  }

  method ScanBlocks(pattern: HeadingPattern, lines: seq<string>, heading0: string) returns (blocks: seq<Block>, heading: string)
    ensures Scan(blocks, heading) == ScanLines(pattern, lines, heading0, [])
  {
    hide FlushParagraph, Strip, Normalize;
    heading := heading0;
    var paragraphLines: seq<string> := [];
    blocks := [];
    ghost var all := ScanLines(pattern, lines, heading0, []);
    assert lines[0..] == lines;
    for i := 0 to |lines|
      invariant all == Scan(blocks + ScanLines(pattern, lines[i..], heading, paragraphLines).blocks,
                            ScanLines(pattern, lines[i..], heading, paragraphLines).heading)
    {
      Uncons(lines, i);
      var line := Strip(lines[i]);
      if line != "" && pattern(lines[i]).None? {
        paragraphLines := paragraphLines + [line];
      } else {
        var next := NextHeading(pattern, lines[i], heading);
        ghost var rest := ScanLines(pattern, lines[i + 1..], next, []);
        AppendMany(blocks, FlushParagraph(heading, paragraphLines), rest.blocks);
        blocks := blocks + FlushParagraph(heading, paragraphLines);
        paragraphLines := [];
        heading := next;
      }
    }
    assert lines[|lines|..] == [];
    blocks := blocks + FlushParagraph(heading, paragraphLines);
  }

  // ----- words under their headings -----

  ghost function Labelled(heading: string, words: seq<string>): seq<(string, string)> {
    seq(|words|, i requires 0 <= i < |words| => (heading, words[i]))
  }

  ghost function BlockWords(blocks: seq<Block>): seq<(string, string)> {
    if blocks == [] then [] else Labelled(blocks[0].heading, Words(blocks[0].content)) + BlockWords(blocks[1..])
  }

  /** The words of the lines that are not headings, each under the heading in force. */
  ghost function LineWords(pattern: HeadingPattern, lines: seq<string>, heading: string): seq<(string, string)>
    decreases |lines|
  {
    if lines == [] then []
    else if IsPlain(pattern, lines[0]) then
      Labelled(heading, Words(lines[0])) + LineWords(pattern, lines[1..], heading)
    else LineWords(pattern, lines[1..], NextHeading(pattern, lines[0], heading))
  }

  lemma LabelledAppend(heading: string, a: seq<string>, b: seq<string>)
    ensures Labelled(heading, a + b) == Labelled(heading, a) + Labelled(heading, b)
  {
  }

  lemma BlockWordsCons(b: Block, blocks: seq<Block>)
    ensures BlockWords([b] + blocks) == Labelled(b.heading, Words(b.content)) + BlockWords(blocks)
  {
    hide Words, Labelled;
    assert ([b] + blocks)[1..] == blocks;
  }

  lemma {:induction false} BlockWordsAppend(a: seq<Block>, b: seq<Block>)
    ensures BlockWords(a + b) == BlockWords(a) + BlockWords(b)
  {
    assert BlockWords([]) == [];
    hide Words, Labelled, BlockWords;
    if a == [] {
      assert a + b == b;
    } else {
      BlockWordsAppend(a[1..], b);
      BlockWordsCons(a[0], a[1..]);
      BlockWordsCons(a[0], a[1..] + b);
      assert [a[0]] + a[1..] == a && [a[0]] + (a[1..] + b) == a + b;
      AppendMany(Labelled(a[0].heading, Words(a[0].content)), BlockWords(a[1..]), BlockWords(b));
    }
  }

  lemma SpacedWords(a: string, b: string)
    ensures Words(a + " " + b) == Words(a) + Words(b)
  {
    SpaceFacts(' ');
    hide IsSpace;
    SnocSpace(a, ' ');
    WordsAppend(a + " ", b);
  }

  lemma JoinSnocWords(lines: seq<string>, line: string)
    ensures Words(Join(lines + [line])) == Words(Join(lines)) + Words(line)
  {
    var n := |lines|;
    assert (lines + [line])[..n] == lines;
    if n > 0 {
      SpacedWords(Join(lines), line);
    } else {
      assert Join([line]) == line && Words("") == [];
    }
  }

  lemma FlushWords(heading: string, lines: seq<string>)
    ensures BlockWords(FlushParagraph(heading, lines)) == Labelled(heading, Words(Join(lines)))
  {
    NormalizeIdempotent(Join(lines));
    WordsOfBlank(Join(lines));
    hide Words, Join;
    var p := Normalize(Join(lines));
    if p != "" {
      assert [Block(heading, p)][1..] == [];
    }
  }

  lemma {:induction false} ScanConserves(pattern: HeadingPattern, lines: seq<string>, heading: string, paragraph: seq<string>)
    ensures BlockWords(ScanLines(pattern, lines, heading, paragraph).blocks) ==
            Labelled(heading, Words(Join(paragraph))) + LineWords(pattern, lines, heading)
    decreases |lines|
  {
    hide Words, Join, Strip, IsPlain, FlushParagraph, NextHeading, Labelled;
    FlushWords(heading, paragraph);
    if lines != [] {
      var raw, rest := lines[0], lines[1..];
      if IsPlain(pattern, raw) {
        ScanConserves(pattern, rest, heading, paragraph + [Strip(raw)]);
        PlainLineWords(heading, paragraph, raw);
      } else {
        var next := NextHeading(pattern, raw, heading);
        NoWords(next);
        ScanConserves(pattern, rest, next, []);
        BlockWordsAppend(FlushParagraph(heading, paragraph), ScanLines(pattern, rest, next, []).blocks);
      }
    }
  }

  lemma NoWords(heading: string)
    ensures Labelled(heading, Words(Join([]))) == []
  {
  }

  lemma PlainLineWords(heading: string, paragraph: seq<string>, raw: string)
    ensures Labelled(heading, Words(Join(paragraph + [Strip(raw)]))) ==
            Labelled(heading, Words(Join(paragraph))) + Labelled(heading, Words(raw))
  {
    hide Words, Join, Strip;
    WordsOfStrip(raw);
    JoinSnocWords(paragraph, Strip(raw));
    LabelledAppend(heading, Words(Join(paragraph)), Words(raw));
  }

  // ----- which lines make a block, and under which heading -----

  /** The title on a heading line that has one. */
  function TitleOf(pattern: HeadingPattern, raw: string): Option<string> {
    if Strip(raw) != "" && pattern(raw).Some? && Normalize(pattern(raw).value) != "" then Some(Normalize(pattern(raw).value)) else None
  }

  /** The last title before line `n`, or the heading given at the start. */
  function InForce(pattern: HeadingPattern, lines: seq<string>, n: nat, heading0: string): string
    requires n <= |lines|
  {
    if n == 0 then heading0
    else if TitleOf(pattern, lines[n - 1]).Some? then TitleOf(pattern, lines[n - 1]).value
    else InForce(pattern, lines, n - 1, heading0)
  }

  /** The longest stretches of plain lines from line `from` on, in order. */
  ghost predicate Runs(pattern: HeadingPattern, lines: seq<string>, from: nat, runs: seq<(nat, nat)>)
    decreases |runs|
  {
    if runs == [] then forall k :: from <= k < |lines| ==> !IsPlain(pattern, lines[k])
    else
      var (a, b) := runs[0];
      && from <= a < b <= |lines|
      && (forall k :: from <= k < a ==> !IsPlain(pattern, lines[k]))
      && (forall k :: a <= k < b ==> IsPlain(pattern, lines[k]))
      && (b < |lines| ==> !IsPlain(pattern, lines[b]))
      && Runs(pattern, lines, b, runs[1..])
  }

  /** The words of these lines under the heading in force. */
  ghost predicate BlockOf(pattern: HeadingPattern, lines: seq<string>, heading0: string, run: (nat, nat), b: Block) {
    run.0 <= run.1 <= |lines|
    && b == Block(InForce(pattern, lines, run.0, heading0), Join(AllWordsOf(lines[run.0..run.1])))
  }

  ghost predicate BlocksOf(pattern: HeadingPattern, lines: seq<string>, heading0: string, runs: seq<(nat, nat)>, blocks: seq<Block>) {
    |blocks| == |runs| && forall k :: 0 <= k < |runs| ==> BlockOf(pattern, lines, heading0, runs[k], blocks[k])
  }

  lemma {:induction false} AllWordsSnoc(texts: seq<string>, text: string)
    ensures AllWordsOf(texts + [text]) == AllWordsOf(texts) + Words(text)
  {
    hide Words;
    if texts == [] {
      assert texts + [text] == [text] && [text][1..] == [];
    } else {
      AllWordsSnoc(texts[1..], text);
      assert (texts + [text])[1..] == texts[1..] + [text];
      AppendMany(Words(texts[0]), AllWordsOf(texts[1..]), Words(text));
    }
  }

  lemma {:induction false} PlainKeepsHeading(pattern: HeadingPattern, lines: seq<string>, heading0: string, a: nat, i: nat)
    requires a <= i <= |lines| && forall k :: a <= k < i ==> IsPlain(pattern, lines[k])
    ensures InForce(pattern, lines, i, heading0) == InForce(pattern, lines, a, heading0)
  {
    hide Strip, Normalize;
    if a < i {
      PlainKeepsHeading(pattern, lines, heading0, a, i - 1);
    }
  }

  lemma NextInForce(pattern: HeadingPattern, lines: seq<string>, heading0: string, i: nat)
    requires i < |lines|
    ensures InForce(pattern, lines, i + 1, heading0) == NextHeading(pattern, lines[i], InForce(pattern, lines, i, heading0))
  {
    hide Strip, Normalize;
  }

  /** A paragraph has words, and is written with one space between them. */
  lemma Flushed(pattern: HeadingPattern, lines: seq<string>, heading0: string, a: nat, i: nat, paragraph: seq<string>)
    requires a <= i <= |lines| && (forall k :: a <= k < i ==> IsPlain(pattern, lines[k]))
    requires Words(Join(paragraph)) == AllWordsOf(lines[a..i])
    ensures var blocks := FlushParagraph(InForce(pattern, lines, i, heading0), paragraph);
            if a < i then BlocksOf(pattern, lines, heading0, [(a, i)], blocks) else blocks == []
  {
    PlainKeepsHeading(pattern, lines, heading0, a, i);
    if a < i {
      assert IsPlain(pattern, lines[a]);
      StripBlank(lines[a]);
      WordsOfBlank(lines[a]);
      assert lines[a..i][0] == lines[a];
      JoinNonEmpty(Words(Join(paragraph)));
      hide Words, Join, Strip, InForce;
    } else {
      assert lines[a..i] == [];
    }
  }

  lemma RunsEarlier(pattern: HeadingPattern, lines: seq<string>, i: nat, runs: seq<(nat, nat)>)
    requires i < |lines| && !IsPlain(pattern, lines[i]) && Runs(pattern, lines, i + 1, runs)
    ensures Runs(pattern, lines, i, runs)
  {
    hide IsPlain;
  }

  lemma FirstRun(pattern: HeadingPattern, lines: seq<string>, heading0: string, a: nat, i: nat, rest: seq<(nat, nat)>,
                 first: seq<Block>, blocks: seq<Block>)
    requires a < i <= |lines| && (forall k :: a <= k < i ==> IsPlain(pattern, lines[k]))
    requires (i < |lines| ==> !IsPlain(pattern, lines[i])) && Runs(pattern, lines, i, rest)
    requires BlocksOf(pattern, lines, heading0, [(a, i)], first) && BlocksOf(pattern, lines, heading0, rest, blocks)
    ensures Runs(pattern, lines, a, [(a, i)] + rest) && BlocksOf(pattern, lines, heading0, [(a, i)] + rest, first + blocks)
  {
    hide IsPlain, BlockOf;
    assert ([(a, i)] + rest)[1..] == rest;
  }

  lemma NoMoreRuns(pattern: HeadingPattern, lines: seq<string>, heading0: string)
    ensures Runs(pattern, lines, |lines|, []) && BlocksOf(pattern, lines, heading0, [], [])
  {
  }

  /** The blocks are the longest stretches of plain lines, each under the heading in force. */
  lemma {:induction false} ScanRuns(pattern: HeadingPattern, lines: seq<string>, heading0: string, a: nat, i: nat, paragraph: seq<string>)
    returns (runs: seq<(nat, nat)>)
    requires a <= i <= |lines| && (forall k :: a <= k < i ==> IsPlain(pattern, lines[k]))
    requires Words(Join(paragraph)) == AllWordsOf(lines[a..i])
    ensures var s := ScanLines(pattern, lines[i..], InForce(pattern, lines, i, heading0), paragraph);
            && s.heading == InForce(pattern, lines, |lines|, heading0)
            && Runs(pattern, lines, a, runs) && BlocksOf(pattern, lines, heading0, runs, s.blocks)
    decreases |lines| - i
  {
    hide Words, Join, IsPlain, Strip, FlushParagraph, NextHeading, InForce, BlocksOf, Runs;
    Flushed(pattern, lines, heading0, a, i, paragraph);
    var first := FlushParagraph(InForce(pattern, lines, i, heading0), paragraph);
    if i == |lines| {
      NoMoreRuns(pattern, lines, heading0);
      runs := [];
      if a < i {
        FirstRun(pattern, lines, heading0, a, i, [], first, []);
        assert first + [] == first;
        runs := [(a, i)] + [];
      }
    } else {
      Uncons(lines, i);
      NextInForce(pattern, lines, heading0, i);
      if IsPlain(pattern, lines[i]) {
        PlainKeepsHeading(pattern, lines, heading0, i, i + 1);
        JoinSnocWords(paragraph, Strip(lines[i]));
        WordsOfStrip(lines[i]);
        AllWordsSnoc(lines[a..i], lines[i]);
        assert lines[a..i] + [lines[i]] == lines[a..i + 1];
        runs := ScanRuns(pattern, lines, heading0, a, i + 1, paragraph + [Strip(lines[i])]);
      } else {
        NoLines(lines, i + 1);
        runs := ScanRuns(pattern, lines, heading0, i + 1, i + 1, []);
        RunsEarlier(pattern, lines, i, runs);
        ghost var blocks := ScanLines(pattern, lines[i + 1..], InForce(pattern, lines, i + 1, heading0), []).blocks;
        if a < i {
          FirstRun(pattern, lines, heading0, a, i, runs, first, blocks);
          runs := [(a, i)] + runs;
        } else {
          assert [] + blocks == blocks;
        }
      }
    }
  }

  lemma NoLines(lines: seq<string>, i: nat)
    requires i <= |lines|
    ensures Words(Join([])) == AllWordsOf(lines[i..i])
  {
    assert lines[i..i] == [];
  }

  lemma ScanExactly(pattern: HeadingPattern, lines: seq<string>, heading0: string) returns (runs: seq<(nat, nat)>)
    ensures var s := ScanLines(pattern, lines, heading0, []);
            && s.heading == InForce(pattern, lines, |lines|, heading0)
            && Runs(pattern, lines, 0, runs) && BlocksOf(pattern, lines, heading0, runs, s.blocks)
  {
    hide Words, Join, Runs, BlocksOf;
    NoLines(lines, 0);
    assert lines[0..] == lines;
    runs := ScanRuns(pattern, lines, heading0, 0, 0, []);
  }
}
