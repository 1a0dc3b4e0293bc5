/** Cutting one text into bounded ranges: `_trim_span` and `_split_chunk_ranges` of
    brainstack/document_pipeline.py. */
module ChunkRanges {
  import opened Sequences
  import opened Text

  datatype Range = Range(lo: nat, hi: nat) {
    predicate Has(k: nat) {
      lo <= k < hi
    }
  }

  // ----- tilings -----

  ghost function Positions(r: Range): set<nat> {
    set k: nat | k < r.hi && r.Has(k)
  }

  ghost function Cover(rs: seq<Range>): set<nat> {
    if rs == [] then {} else Positions(rs[0]) + Cover(rs[1..])
  }

  /** Non-empty ranges, one after the other and disjoint, inside `lo..hi`. */
  ghost predicate Ordered(rs: seq<Range>, lo: nat, hi: nat) {
    if rs == [] then lo <= hi
    else lo <= rs[0].lo < rs[0].hi && Ordered(rs[1..], rs[0].hi, hi)
  }

  /** Ordered ranges inside `lo..hi` that leave out no position of `need`. */
  ghost predicate Tiling(rs: seq<Range>, need: set<nat>, lo: nat, hi: nat) {
    Ordered(rs, lo, hi) && need <= Cover(rs)
  }

  ghost predicate AtMost(rs: seq<Range>, maxChars: nat) {
    forall i :: 0 <= i < |rs| ==> rs[i].hi - rs[i].lo <= maxChars
  }

  ghost function NonSpace(text: string, lo: nat, hi: nat): set<nat> {
    set k: nat | lo <= k < hi && k < |text| && !IsSpace(text[k])
  }

  lemma {:induction false} OrderedBounds(rs: seq<Range>, lo: nat, hi: nat)
    requires Ordered(rs, lo, hi)
    ensures lo <= hi
    ensures forall k :: k in Cover(rs) ==> lo <= k < hi
    ensures forall i :: 0 <= i < |rs| ==> lo <= rs[i].lo < rs[i].hi <= hi
    ensures forall i, j :: 0 <= i < j < |rs| ==> rs[i].hi <= rs[j].lo
  {
    if rs != [] {
      var tail := rs[1..];
      OrderedBounds(tail, rs[0].hi, hi);
      forall i, j | 0 <= i < j < |rs| ensures rs[i].hi <= rs[j].lo {
        assert rs[j] == tail[j - 1] && (i > 0 ==> rs[i] == tail[i - 1]);
      }
      forall i | 0 <= i < |rs| ensures lo <= rs[i].lo < rs[i].hi <= hi {
        assert i > 0 ==> rs[i] == tail[i - 1];
      }
    }
  }

  lemma CoverOne(r: Range)
    ensures Cover([r]) == Positions(r)
  {
    assert [r][1..] == [];
  }

  lemma CoverCons(r: Range, rs: seq<Range>)
    ensures Cover([r] + rs) == Positions(r) + Cover(rs)
  {
    assert ([r] + rs)[1..] == rs;
  }

  lemma {:induction false} CoverIndex(rs: seq<Range>, k: nat)
    ensures k in Cover(rs) <==> exists i :: 0 <= i < |rs| && rs[i].lo <= k < rs[i].hi
  {
    if rs != [] {
      CoverIndex(rs[1..], k);
      forall i | 0 < i < |rs| ensures rs[i] == rs[1..][i - 1] {}
    }
  }

  /** Reading a tiling by index: every needed position lies in one range, and in no other. */
  lemma InExactlyOne(rs: seq<Range>, need: set<nat>, lo: nat, hi: nat, k: nat) returns (i: nat)
    requires Tiling(rs, need, lo, hi) && k in need
    ensures i < |rs| && rs[i].lo <= k < rs[i].hi
    ensures forall j :: 0 <= j < |rs| && rs[j].lo <= k < rs[j].hi ==> j == i
  {
    CoverIndex(rs, k);
    OrderedBounds(rs, lo, hi);
    i :| 0 <= i < |rs| && rs[i].lo <= k < rs[i].hi;
  }

  lemma {:induction false} TilingAppend(a: seq<Range>, lo: nat, mid: nat, mid': nat, b: seq<Range>, hi: nat)
    requires Ordered(a, lo, mid) && mid <= mid' && Ordered(b, mid', hi)
    ensures Ordered(a + b, lo, hi)
    ensures Cover(a + b) == Cover(a) + Cover(b)
  {
    if a == [] {
      assert a + b == b;
      if b != [] { assert lo <= b[0].lo; }
      OrderedBounds(b, mid', hi);
    } else {
      TilingAppend(a[1..], a[0].hi, mid, mid', b, hi);
      assert (a + b)[1..] == a[1..] + b;
    }
  }

  // ----- trimming -----

  function Trim(content: string, s: nat, e: nat): (r: Range)
    requires s <= e <= |content|
    ensures s <= r.lo <= r.hi <= e
    decreases e - s
  {
    if s < e && IsSpace(content[s]) then Trim(content, s + 1, e)
    else if s < e && IsSpace(content[e - 1]) then Trim(content, s, e - 1)
    else Range(s, e)
  }

  method TrimSpan(content: string, startOffset: nat, endOffset: nat) returns (start: nat, end: nat, text: string)
    requires startOffset <= endOffset <= |content|
    ensures Range(start, end) == Trim(content, startOffset, endOffset)
    ensures text == content[start..end]
  {
    start, end := startOffset, endOffset;
    while start < end && IsSpace(content[start])
      invariant startOffset <= start <= end
      invariant Trim(content, start, end) == Trim(content, startOffset, endOffset)
    {
      start := start + 1;
    }
    while end > start && IsSpace(content[end - 1])
      invariant start <= end <= endOffset
      invariant start < end ==> !IsSpace(content[start])
      invariant Trim(content, start, end) == Trim(content, startOffset, endOffset)
    {
      end := end - 1;
    }
    text := content[start..end];
  }

  lemma {:induction false} TrimExact(content: string, s: nat, e: nat)
    requires s <= e <= |content|
    ensures var r := Trim(content, s, e);
            && (forall k :: s <= k < r.lo || r.hi <= k < e ==> IsSpace(content[k]))
            && (r.lo < r.hi ==> !IsSpace(content[r.lo]) && !IsSpace(content[r.hi - 1]))
    decreases e - s
  {
    if s < e && IsSpace(content[s]) {
      TrimExact(content, s + 1, e);
    } else if s < e && IsSpace(content[e - 1]) {
      TrimExact(content, s, e - 1);
    }
  }

  /** The trimmed range as a list: nothing when only whitespace was there. */
  function Trimmed(content: string, s: nat, e: nat): (rs: seq<Range>)
    requires s <= e <= |content|
  {
    var r := Trim(content, s, e);
    if r.lo < r.hi then [r] else []
  }

  lemma TrimmedTiles(content: string, s: nat, e: nat)
    requires s <= e <= |content|
    ensures Tiling(Trimmed(content, s, e), NonSpace(content, s, e), s, e)
  {
    TrimExact(content, s, e);
    var r := Trim(content, s, e);
    if r.lo < r.hi {
      assert [r][1..] == [];
    }
  }

  // ----- paragraph ranges -----

  function SkipSpace(text: string, start: nat): (s: nat)
    requires start <= |text|
    ensures start <= s <= |text|
    ensures s < |text| ==> !IsSpace(text[s])
    decreases |text| - start
  {
    if start < |text| && IsSpace(text[start]) then SkipSpace(text, start + 1) else start
  }

  lemma {:induction false} SkipSpaceGap(text: string, start: nat)
    requires start <= |text|
    ensures forall k :: start <= k < SkipSpace(text, start) ==> IsSpace(text[k])
    decreases |text| - start
  {
    if start < |text| && IsSpace(text[start]) {
      SkipSpaceGap(text, start + 1);
    }
  }

  function ParagraphEnd(text: string, s: nat): (e: nat)
    requires s < |text| && !IsSpace(text[s])
    ensures s < e <= |text|
  {
    SpaceFacts('\n');
    var f := Find(text, "\n\n", s);
    assert f != -1 ==> text[f] == text[f..f + 2][0];
    if f == -1 then |text| else f
  }

  /** A paragraph stops at the end of the text or at two line feeds, which are whitespace. */
  lemma ParagraphGap(text: string, s: nat)
    requires s < |text| && !IsSpace(text[s])
    ensures var e := ParagraphEnd(text, s);
            e == |text| || (e + 2 <= |text| && IsSpace(text[e]) && IsSpace(text[e + 1]))
  {
    SpaceFacts('\n');
    var f := Find(text, "\n\n", s);
    assert f != -1 ==> text[f] == text[f..f + 2][0] && text[f + 1] == text[f..f + 2][1];
  }

  function Paragraphs(text: string, start: nat): (rs: seq<Range>)
    decreases if start < |text| then |text| - start else 0
  {
    if start >= |text| then []
    else
      var s := SkipSpace(text, start);
      if s >= |text| then []
      else [Range(s, ParagraphEnd(text, s))] + Paragraphs(text, ParagraphEnd(text, s) + 2)
  }

  method SkipWhitespace(text: string, from: nat) returns (start: nat)
    requires from <= |text|
    ensures start == SkipSpace(text, from)
  {
    start := from;
    while start < |text| && IsSpace(text[start])
      invariant from <= start <= |text|
      invariant SkipSpace(text, start) == SkipSpace(text, from)
    {
      start := start + 1;
    }
  }

  lemma ParagraphsUnfold(text: string, start: nat, s: nat)
    requires start < |text| && s == SkipSpace(text, start)
    ensures Paragraphs(text, start) ==
            if s >= |text| then [] else [Range(s, ParagraphEnd(text, s))] + Paragraphs(text, ParagraphEnd(text, s) + 2)
  {
  }

  method ParagraphRanges(text: string) returns (rs: seq<Range>)
    ensures rs == Paragraphs(text, 0)
  {
    hide IsSpace, SkipSpace, ParagraphEnd;
    rs := [];
    var start := 0;
    ghost var all := Paragraphs(text, 0);
    while start < |text|
      invariant rs + Paragraphs(text, start) == all
    {
      ghost var from := start;
      start := SkipWhitespace(text, start);
      ParagraphsUnfold(text, from, start);
      if start >= |text| {
        break;
      }
      var end := ParagraphEnd(text, start);
      AppendOne(rs, Range(start, end), Paragraphs(text, end + 2));
      rs := rs + [Range(start, end)];
      start := end + 2;
    }
  }

  /** From where on only whitespace is left, no range is needed. */
  lemma NothingLeft(text: string, start: nat)
    ensures start <= |text| ==> Ordered([], start, |text|)
    ensures (forall k :: start <= k < |text| ==> IsSpace(text[k])) ==> NonSpace(text, start, |text|) <= Cover([])
  {
    hide IsSpace;
  }

  lemma {:induction false} ParagraphsTile(text: string, start: nat)
    ensures start <= |text| ==> Ordered(Paragraphs(text, start), start, |text|)
    ensures NonSpace(text, start, |text|) <= Cover(Paragraphs(text, start))
    decreases if start < |text| then |text| - start else 0
  {
    hide IsSpace, SkipSpace, ParagraphEnd, Ordered, Cover, NonSpace;
    NothingLeft(text, start);
    if start < |text| {
      var s := SkipSpace(text, start);
      SkipSpaceGap(text, start);
      ParagraphsUnfold(text, start, s);
      if s < |text| {
        var e := ParagraphEnd(text, s);
        ParagraphGap(text, s);
        ParagraphsTile(text, e + 2);
        var rest := Paragraphs(text, e + 2);
        ParagraphStep(text, start, s, e, rest);
      }
    }
  }

  lemma ParagraphStep(text: string, start: nat, s: nat, e: nat, rest: seq<Range>)
    requires start <= s < e <= |text|
    requires forall k :: start <= k < s ==> IsSpace(text[k])
    requires e == |text| || (e + 2 <= |text| && IsSpace(text[e]) && IsSpace(text[e + 1]))
    requires if e + 2 <= |text| then Ordered(rest, e + 2, |text|) else rest == []
    requires NonSpace(text, e + 2, |text|) <= Cover(rest)
    ensures Ordered([Range(s, e)] + rest, start, |text|)
    ensures NonSpace(text, start, |text|) <= Cover([Range(s, e)] + rest)
  {
    var rs := [Range(s, e)] + rest;
    assert rs[1..] == rest;
    if e + 2 <= |text| {
      OrderedBounds(rest, e + 2, |text|);
    }
    forall k | k in NonSpace(text, start, |text|) ensures k in Cover(rs) {
      if k >= e + 2 {
        assert k in NonSpace(text, e + 2, |text|);
      } else {
        assert rs[0].Has(k);
      }
    }
  }

  /** A paragraph starts at the first character from `from` on that is not whitespace, and ends at the first two
      line feeds after that, or with the text. */
  ghost predicate IsParagraph(text: string, from: nat, p: Range) {
    && from <= p.lo < p.hi <= |text| && !IsSpace(text[p.lo])
    && (forall k :: from <= k < p.lo ==> IsSpace(text[k]))
    && (forall k :: p.lo <= k < p.hi ==> !OccursAt(text, "\n\n", k))
    && (p.hi == |text| || OccursAt(text, "\n\n", p.hi))
  }

  /** The paragraphs follow each other from `from` on, and after the last one there is only whitespace. */
  ghost predicate ParagraphsFrom(text: string, from: nat, ps: seq<Range>)
    decreases |ps|
  {
    if ps == [] then forall k :: from <= k < |text| ==> IsSpace(text[k])
    else IsParagraph(text, from, ps[0]) && ParagraphsFrom(text, ps[0].hi + 2, ps[1..])
  }

  lemma ParagraphIs(text: string, from: nat, s: nat)
    requires from <= s < |text| && !IsSpace(text[s]) && forall k :: from <= k < s ==> IsSpace(text[k])
    ensures IsParagraph(text, from, Range(s, ParagraphEnd(text, s)))
  {
    hide IsSpace;
    var f := Find(text, "\n\n", s);
    forall k | s <= k < ParagraphEnd(text, s) ensures !OccursAt(text, "\n\n", k) {
    }
  }

  lemma {:induction false} ParagraphsExactly(text: string, from: nat)
    ensures ParagraphsFrom(text, from, Paragraphs(text, from))
    decreases if from < |text| then |text| - from else 0
  {
    hide IsSpace, SkipSpace, ParagraphEnd, IsParagraph;
    if from < |text| {
      var s := SkipSpace(text, from);
      SkipSpaceGap(text, from);
      ParagraphsUnfold(text, from, s);
      if s < |text| {
        var e := ParagraphEnd(text, s);
        ParagraphIs(text, from, s);
        ParagraphsExactly(text, e + 2);
        assert ([Range(s, e)] + Paragraphs(text, e + 2))[1..] == Paragraphs(text, e + 2);
      }
    }
  }

  lemma ParagraphUnique(text: string, from: nat, p: Range, q: Range)
    requires IsParagraph(text, from, p) && IsParagraph(text, from, q)
    ensures p == q
  {
    hide OccursAt, IsSpace;
  }

  /** There is one list of paragraphs. */
  lemma {:induction false} ParagraphsUnique(text: string, from: nat, ps: seq<Range>, qs: seq<Range>)
    requires ParagraphsFrom(text, from, ps) && ParagraphsFrom(text, from, qs)
    ensures ps == qs
    decreases |ps|
  {
    hide IsSpace, OccursAt;
    if ps != [] && qs != [] {
      ParagraphUnique(text, from, ps[0], qs[0]);
      ParagraphsUnique(text, ps[0].hi + 2, ps[1..], qs[1..]);
      assert ps == [ps[0]] + ps[1..] && qs == [qs[0]] + qs[1..];
    }
  }

  // ----- merging paragraphs -----

  /** Range `i` runs over the paragraphs from number `cuts[i]` to just before number `cuts[i + 1]`, and all together
      over those from number `a` to just before number `b`. */
  ghost predicate GreedyRuns(ps: seq<Range>, rs: seq<Range>, cuts: seq<nat>, a: nat, b: nat, maxChars: nat) {
    && |cuts| == |rs| + 1 && cuts[0] == a && cuts[|rs|] == b
    && forall i :: 0 <= i < |rs| ==> GreedyRun(ps, rs[i], cuts[i], cuts[i + 1], maxChars)
  }

  /** From the start of the first paragraph to the end of the last one: more than one only within the limit, and
      one more would be beyond it. */
  ghost predicate GreedyRun(ps: seq<Range>, r: Range, a: nat, b: nat, maxChars: nat) {
    && a < b <= |ps| && r == Range(ps[a].lo, ps[b - 1].hi)
    && (b > a + 1 ==> r.hi - r.lo <= maxChars)
    && (b < |ps| ==> ps[b].hi - r.lo > maxChars)
  }

  function Merge(cur: Range, rest: seq<Range>, maxChars: nat): seq<Range>
    decreases |rest|
  {
    if rest == [] then [cur]
    else if rest[0].hi - cur.lo <= maxChars then Merge(Range(cur.lo, rest[0].hi), rest[1..], maxChars)
    else [cur] + Merge(rest[0], rest[1..], maxChars)
  }

  lemma {:induction false} MergeTiles(cur: Range, rest: seq<Range>, maxChars: nat, lo: nat, hi: nat)
    requires lo <= cur.lo < cur.hi && Ordered(rest, cur.hi, hi)
    ensures Ordered(Merge(cur, rest, maxChars), lo, hi)
    ensures Positions(cur) + Cover(rest) <= Cover(Merge(cur, rest, maxChars))
    decreases |rest|
  {
    if rest == [] {
      assert [cur][1..] == [];
    } else if rest[0].hi - cur.lo <= maxChars {
      var joined := Range(cur.lo, rest[0].hi);
      MergeTiles(joined, rest[1..], maxChars, lo, hi);
      assert Positions(cur) + Positions(rest[0]) <= Positions(joined);
    } else {
      MergeTiles(rest[0], rest[1..], maxChars, cur.hi, hi);
      var m := Merge(rest[0], rest[1..], maxChars);
      assert ([cur] + m)[1..] == m;
    }
  }

  /** Merging takes in paragraphs as long as they fit, and cuts only where the next one does not. */
  lemma {:induction false} MergeGreedy(ps: seq<Range>, a: nat, b: nat, maxChars: nat) returns (cuts: seq<nat>)
    requires a < b <= |ps| && (b > a + 1 ==> ps[b - 1].hi - ps[a].lo <= maxChars)
    ensures GreedyRuns(ps, Merge(Range(ps[a].lo, ps[b - 1].hi), ps[b..], maxChars), cuts, a, |ps|, maxChars)
    decreases |ps| - b
  {
    var cur := Range(ps[a].lo, ps[b - 1].hi);
    if b == |ps| {
      cuts := [a, b];
    } else {
      Uncons(ps, b);
      if ps[b].hi - cur.lo <= maxChars {
        cuts := MergeGreedy(ps, a, b + 1, maxChars);
      } else {
        var rest := MergeGreedy(ps, b, b + 1, maxChars);
        cuts := [a] + rest;
        RunsCons(ps, cur, Merge(ps[b], ps[b + 1..], maxChars), rest, a, b, |ps|, maxChars);
      }
    }
  }

  lemma RunsCons(ps: seq<Range>, r: Range, rs: seq<Range>, cuts: seq<nat>, a: nat, b: nat, c: nat, maxChars: nat)
    requires GreedyRun(ps, r, a, b, maxChars) && GreedyRuns(ps, rs, cuts, b, c, maxChars)
    ensures GreedyRuns(ps, [r] + rs, [a] + cuts, a, c, maxChars)
  {
    hide GreedyRun;
    forall i | 0 <= i < |[r] + rs| ensures GreedyRun(ps, ([r] + rs)[i], ([a] + cuts)[i], ([a] + cuts)[i + 1], maxChars) {
      if i > 0 {
        assert GreedyRun(ps, rs[i - 1], cuts[i - 1], cuts[i], maxChars);
      }
    }
  }

  /** There is no other way to merge like that. */
  lemma {:induction false} GreedyUnique(ps: seq<Range>, rs: seq<Range>, cuts: seq<nat>, rs': seq<Range>, cuts': seq<nat>,
                                        a: nat, maxChars: nat)
    requires forall i, j :: 0 <= i < j < |ps| ==> ps[i].hi <= ps[j].hi
    requires GreedyRuns(ps, rs, cuts, a, |ps|, maxChars) && GreedyRuns(ps, rs', cuts', a, |ps|, maxChars)
    ensures rs == rs'
    decreases |rs|
  {
    FirstRun(ps, rs, cuts, a, maxChars);
    FirstRun(ps, rs', cuts', a, maxChars);
    hide GreedyRuns;
    if rs != [] {
      GreedyUnique(ps, rs[1..], cuts[1..], rs'[1..], cuts'[1..], cuts[1], maxChars);
      assert rs == [rs[0]] + rs[1..] && rs' == [rs'[0]] + rs'[1..];
    }
  }

  lemma FirstRun(ps: seq<Range>, rs: seq<Range>, cuts: seq<nat>, a: nat, maxChars: nat)
    requires GreedyRuns(ps, rs, cuts, a, |ps|, maxChars)
    ensures rs == [] <==> a == |ps|
    ensures rs != [] ==>
              |cuts| > 1 && GreedyRun(ps, rs[0], a, cuts[1], maxChars)
              && GreedyRuns(ps, rs[1..], cuts[1..], cuts[1], |ps|, maxChars)
  {
    if rs != [] {
      assert GreedyRun(ps, rs[0], cuts[0], cuts[1], maxChars);
      hide GreedyRun;
    }
  }

  method MergeParagraphs(ps: seq<Range>, maxChars: nat) returns (chunkRanges: seq<Range>)
    requires ps != []
    ensures chunkRanges == Merge(ps[0], ps[1..], maxChars)
    ensures exists cuts :: GreedyRuns(ps, chunkRanges, cuts, 0, |ps|, maxChars)
  {
    ghost var cuts := MergeGreedy(ps, 0, 1, maxChars);
    hide GreedyRuns;
    chunkRanges := [];
    var current := ps[0];
    for i := 1 to |ps|
      invariant chunkRanges + Merge(current, ps[i..], maxChars) == Merge(ps[0], ps[1..], maxChars)
    {
      assert ps[i..][0] == ps[i] && ps[i..][1..] == ps[i + 1..];
      var candidateLen := ps[i].hi - current.lo;
      if candidateLen <= maxChars {
        current := Range(current.lo, ps[i].hi);
        continue;
      }
      chunkRanges := chunkRanges + [current];
      current := ps[i];
    }
    chunkRanges := chunkRanges + [current];
  }

  // ----- splitting what is still too long -----

  /** A bound of `str.rfind`: a negative one counts from the end of the text. */
  function Bound(text: string, i: int): (n: nat)
    ensures n <= |text|
    ensures 0 <= i <= |text| ==> n == i
  {
    if i > |text| then |text| else if i >= 0 then i else if |text| + i >= 0 then |text| + i else 0
  }

  function LastStop(text: string, lo: int, hi: int): int {
    RFind(text, ". ", Bound(text, lo), Bound(text, hi))
  }

  /** Where the piece that starts at `s` ends: at the limit, or just after the last full stop that
      leaves more than 80 characters. */
  function SplitEnd(text: string, s: int, e: nat, maxChars: int): (r: int)
    requires s < e <= |text|
    ensures 0 <= s && maxChars >= 1 ==> s < r <= e && r <= s + maxChars
  {
    var limit := if e <= s + maxChars then e else s + maxChars;
    if limit < e then
      var stop := LastStop(text, s, limit);
      if stop > s + 80 then stop + 1 else limit
    else limit
  }

  /** The limit lies before the text, so that it counts from the end of the text, and what is found there, or the
      -1 for nothing, is far enough. */
  predicate FarStop(text: string, s: int, maxChars: int) {
    s + maxChars < 0 && LastStop(text, s, s + maxChars) > s + 80
  }

  /** The piece ends after it starts exactly when the limit is at least 1 or a negative one meets a far stop. */
  lemma SplitAdvances(text: string, s: int, e: nat, maxChars: int)
    requires s < e <= |text|
    ensures s < SplitEnd(text, s, e, maxChars) <==> maxChars >= 1 || FarStop(text, s, maxChars)
  {
    hide RFind;
  }

  /** Where the loop is after `n` pieces, or where it ended before. */
  function AfterPieces(text: string, s: int, e: nat, maxChars: int, n: nat): int
    requires e <= |text|
    decreases n
  {
    if n == 0 || s >= e then s else AfterPieces(text, SplitEnd(text, s, e, maxChars), e, maxChars, n - 1)
  }

  /** With a limit below 1 and no full stop at or after the end of the range, the loop never gets there. */
  lemma {:induction false} SplitNeverEnds(text: string, s: int, e: nat, maxChars: int, n: nat)
    requires s < e <= |text| && 0 < e && maxChars < 1
    requires forall j :: e - 1 <= j ==> !OccursAt(text, ". ", j)
    ensures AfterPieces(text, s, e, maxChars, n) < e
    decreases n
  {
    hide RFind, OccursAt;
    if n > 0 {
      var limit := s + maxChars;
      assert LastStop(text, s, limit) == -1 || OccursAt(text, ". ", LastStop(text, s, limit));
      SplitNeverEnds(text, SplitEnd(text, s, e, maxChars), e, maxChars, n - 1);
    }
  }

  /** With a negative limit and a full stop after the range the piece can reach past the range. */
  lemma SplitOvershoots(text: string, e: nat, maxChars: int, stop: nat)
    requires 0 < e <= |text| && maxChars < 0
    requires OccursAt(text, ". ", stop) && stop > 80 && e <= stop && stop + 2 <= |text| + maxChars
    ensures SplitEnd(text, 0, e, maxChars) > e
  {
    hide RFind, OccursAt;
    assert LastStop(text, 0, maxChars) >= stop;
  }

  /** A full stop and a space within `w`, more than 80 characters after `s`. */
  ghost predicate LateStop(text: string, s: nat, w: nat, k: int) {
    s + 80 < k && k + 2 <= w && OccursAt(text, ". ", k)
  }

  /** The piece runs to the end of the range if that is within the limit. Otherwise it ends just after the last late
      full stop within the limit, or, without one, at the limit. */
  ghost predicate PieceEnds(text: string, p: Range, e: nat, maxChars: nat) {
    && p.lo < p.hi <= e
    && if e - p.lo <= maxChars then p.hi == e
       else
         var w := p.lo + maxChars;
         if exists k :: LateStop(text, p.lo, w, k) then
           LateStop(text, p.lo, w, p.hi - 1) && forall k :: LateStop(text, p.lo, w, k) ==> k < p.hi
         else p.hi == w
  }

  lemma SplitEndExactly(text: string, s: nat, e: nat, maxChars: nat)
    requires s < e <= |text| && maxChars >= 1
    ensures PieceEnds(text, Range(s, SplitEnd(text, s, e, maxChars)), e, maxChars)
  {
    hide OccursAt, RFind;
    var w := s + maxChars;
    if w < e {
      var stop := LastStop(text, s, w);
      assert forall k :: LateStop(text, s, w, k) ==> k <= stop;
      assert stop > s + 80 ==> LateStop(text, s, w, stop);
    }
  }

  function SplitLong(text: string, s: nat, e: nat, maxChars: nat): (rs: seq<Range>)
    requires s <= e <= |text| && maxChars >= 1
    decreases e - s
  {
    if s == e then []
    else [Range(s, SplitEnd(text, s, e, maxChars))] + SplitLong(text, SplitEnd(text, s, e, maxChars), e, maxChars)
  }

  lemma {:induction false} SplitLongTiles(text: string, s: nat, e: nat, maxChars: nat)
    requires s <= e <= |text| && maxChars >= 1
    ensures Ordered(SplitLong(text, s, e, maxChars), s, e)
    ensures Cover(SplitLong(text, s, e, maxChars)) == Positions(Range(s, e))
    ensures AtMost(SplitLong(text, s, e, maxChars), maxChars)
    decreases e - s
  {
    if s < e {
      var m := SplitEnd(text, s, e, maxChars);
      SplitLongTiles(text, m, e, maxChars);
      var rest := SplitLong(text, m, e, maxChars);
      assert ([Range(s, m)] + rest)[1..] == rest;
    }
  }

  /** The pieces of a range: the first starts where the range does, each ends by the rule, the next starts there. */
  lemma {:induction false} PiecesEnd(text: string, s: nat, e: nat, maxChars: nat)
    requires s < e <= |text| && maxChars >= 1
    ensures var ps := SplitLong(text, s, e, maxChars);
            && ps != [] && ps[0].lo == s && ps[|ps| - 1].hi == e
            && (forall i :: 0 <= i < |ps| ==> PieceEnds(text, ps[i], e, maxChars))
            && forall i :: 0 <= i < |ps| - 1 ==> ps[i].hi == ps[i + 1].lo
    decreases e - s
  {
    hide PieceEnds, SplitEnd;
    SplitEndExactly(text, s, e, maxChars);
    var m := SplitEnd(text, s, e, maxChars);
    var rest := SplitLong(text, m, e, maxChars);
    if m < e {
      PiecesEnd(text, m, e, maxChars);
      assert ([Range(s, m)] + rest)[1..] == rest;
    } else {
      assert rest == [];
    }
  }

  function Bounded(text: string, r: Range, maxChars: nat): seq<Range>
    requires r.lo <= r.hi <= |text| && maxChars >= 1
  {
    if r.hi - r.lo <= maxChars then [r] else SplitLong(text, r.lo, r.hi, maxChars)
  }

  lemma BoundedTiles(text: string, r: Range, maxChars: nat, lo: nat)
    requires lo <= r.lo < r.hi <= |text| && maxChars >= 1
    ensures Ordered(Bounded(text, r, maxChars), lo, r.hi)
    ensures Cover(Bounded(text, r, maxChars)) == Positions(r)
    ensures AtMost(Bounded(text, r, maxChars), maxChars)
  {
    if r.hi - r.lo <= maxChars {
      assert [r][1..] == [];
    } else {
      SplitLongTiles(text, r.lo, r.hi, maxChars);
    }
  }

  ghost predicate InText(text: string, rs: seq<Range>) {
    forall i :: 0 <= i < |rs| ==> rs[i].lo <= rs[i].hi <= |text|
  }

  function BoundedAll(text: string, rs: seq<Range>, maxChars: nat): seq<Range>
    requires InText(text, rs) && maxChars >= 1
  {
    if rs == [] then [] else Bounded(text, rs[0], maxChars) + BoundedAll(text, rs[1..], maxChars)
  }

  lemma {:induction false} BoundedAllTiles(text: string, rs: seq<Range>, maxChars: nat, lo: nat, hi: nat)
    requires InText(text, rs) && Ordered(rs, lo, hi) && hi <= |text| && maxChars >= 1
    ensures Ordered(BoundedAll(text, rs, maxChars), lo, hi)
    ensures Cover(BoundedAll(text, rs, maxChars)) == Cover(rs)
    ensures AtMost(BoundedAll(text, rs, maxChars), maxChars)
    decreases |rs|
  {
    if rs != [] {
      BoundedAllTiles(text, rs[1..], maxChars, rs[0].hi, hi);
      BoundedTiles(text, rs[0], maxChars, lo);
      TilingAppend(Bounded(text, rs[0], maxChars), lo, rs[0].hi, rs[0].hi, BoundedAll(text, rs[1..], maxChars), hi);
    }
  }

  // ----- chunk ranges of one text -----

  function Groups(text: string, maxChars: nat): (rs: seq<Range>)
    ensures InText(text, rs)
    ensures Tiling(rs, NonSpace(text, 0, |text|), 0, |text|)
  {
    var ps := Paragraphs(text, 0);
    ParagraphsTile(text, 0);
    if ps == [] then []
    else
      MergeTiles(ps[0], ps[1..], maxChars, 0, |text|);
      OrderedBounds(Merge(ps[0], ps[1..], maxChars), 0, |text|);
      Merge(ps[0], ps[1..], maxChars)
  }

  function RangesOf(text: string, maxChars: nat): seq<Range>
    requires maxChars >= 1
  {
    BoundedAll(text, Groups(text, maxChars), maxChars)
  }

  lemma RangesOfTile(text: string, maxChars: nat)
    requires maxChars >= 1
    ensures Tiling(RangesOf(text, maxChars), NonSpace(text, 0, |text|), 0, |text|)
    ensures AtMost(RangesOf(text, maxChars), maxChars)
  {
    BoundedAllTiles(text, Groups(text, maxChars), maxChars, 0, |text|);
  }

  /** The ranges of a text before cutting. */
  lemma GroupsExactly(text: string, maxChars: nat) returns (ps: seq<Range>, cuts: seq<nat>)
    ensures ParagraphsFrom(text, 0, ps) && GreedyRuns(ps, Groups(text, maxChars), cuts, 0, |ps|, maxChars)
  {
    hide ParagraphsFrom, GreedyRun;
    ParagraphsExactly(text, 0);
    ps := Paragraphs(text, 0);
    if ps == [] {
      cuts := [0];
    } else {
      cuts := MergeGreedy(ps, 0, 1, maxChars);
    }
  }

  /** Every range of a text is a piece of a range before cutting, and ends by the rule. */
  lemma {:induction false} RangesEnd(text: string, rs: seq<Range>, maxChars: nat)
    requires InText(text, rs) && maxChars >= 1 && forall i :: 0 <= i < |rs| ==> rs[i].lo < rs[i].hi
    ensures forall p :: p in BoundedAll(text, rs, maxChars) ==>
              exists r :: r in rs && r.lo <= p.lo && PieceEnds(text, p, r.hi, maxChars)
    decreases |rs|
  {
    hide PieceEnds;
    if rs != [] {
      RangesEnd(text, rs[1..], maxChars);
      forall p | p in Bounded(text, rs[0], maxChars) ensures rs[0].lo <= p.lo && PieceEnds(text, p, rs[0].hi, maxChars) {
        RangeEnds(text, rs[0], maxChars, p);
      }
      assert forall r :: r in rs[1..] ==> r in rs;
      assert rs[0] in rs;
    }
  }

  lemma RangeEnds(text: string, r: Range, maxChars: nat, p: Range)
    requires r.lo < r.hi <= |text| && maxChars >= 1 && p in Bounded(text, r, maxChars)
    ensures r.lo <= p.lo && PieceEnds(text, p, r.hi, maxChars)
  {
    if r.hi - r.lo > maxChars {
      hide PieceEnds, SplitLong;
      PiecesEnd(text, r.lo, r.hi, maxChars);
      SplitLongTiles(text, r.lo, r.hi, maxChars);
      OrderedBounds(SplitLong(text, r.lo, r.hi, maxChars), r.lo, r.hi);
    }
  }

  /** What the ranges of a text are: its paragraphs are merged greedily, and what is then too long is cut, at the
      last late full stop within the limit or at the limit. */
  lemma RangesExactly(text: string, maxChars: nat) returns (ps: seq<Range>, rs: seq<Range>, cuts: seq<nat>)
    requires maxChars >= 1
    ensures ParagraphsFrom(text, 0, ps) && GreedyRuns(ps, rs, cuts, 0, |ps|, maxChars)
    ensures Cover(RangesOf(text, maxChars)) == Cover(rs)
    ensures forall p :: p in RangesOf(text, maxChars) ==>
              exists r :: r in rs && r.lo <= p.lo && PieceEnds(text, p, r.hi, maxChars)
  {
    hide ParagraphsFrom, GreedyRuns, PieceEnds, Cover;
    rs := Groups(text, maxChars);
    ps, cuts := GroupsExactly(text, maxChars);
    hide Groups;
    OrderedBounds(rs, 0, |text|);
    BoundedAllTiles(text, rs, maxChars, 0, |text|);
    RangesEnd(text, rs, maxChars);
  }

  /** A text whose paragraphs end within the limit of where they start is one range. */
  lemma OneRange(text: string, ps: seq<Range>, maxChars: nat)
    requires maxChars >= 1 && ParagraphsFrom(text, 0, ps) && ps != [] && ps[|ps| - 1].hi - ps[0].lo <= maxChars
    ensures RangesOf(text, maxChars) == [Range(ps[0].lo, ps[|ps| - 1].hi)]
  {
    hide ParagraphsFrom;
    ParagraphsExactly(text, 0);
    ParagraphsUnique(text, 0, ps, Paragraphs(text, 0));
    ParagraphsTile(text, 0);
    OrderedBounds(ps, 0, |text|);
    var cuts := MergeGreedy(ps, 0, 1, maxChars);
    var rs := Groups(text, maxChars);
    hide Groups, Paragraphs, Merge;
    OneRun(ps, rs, cuts, maxChars);
    BoundedOne(text, rs[0], maxChars);
  }

  lemma BoundedOne(text: string, r: Range, maxChars: nat)
    requires r.lo <= r.hi <= |text| && maxChars >= 1 && r.hi - r.lo <= maxChars
    ensures BoundedAll(text, [r], maxChars) == [r]
  {
    assert [r][1..] == [];
  }

  lemma OneRun(ps: seq<Range>, rs: seq<Range>, cuts: seq<nat>, maxChars: nat)
    requires ps != [] && ps[|ps| - 1].hi - ps[0].lo <= maxChars && forall i, j :: 0 <= i < j < |ps| ==> ps[i].hi <= ps[j].hi
    requires GreedyRuns(ps, rs, cuts, 0, |ps|, maxChars)
    ensures rs == [Range(ps[0].lo, ps[|ps| - 1].hi)]
  {
    FirstRun(ps, rs, cuts, 0, maxChars);
    hide GreedyRuns;
    FirstRun(ps, rs[1..], cuts[1..], cuts[1], maxChars);
  }

  method SplitPieces(text: string, r: Range, maxChars: nat) returns (output: seq<Range>)
    requires r.lo <= r.hi <= |text| && maxChars >= 1
    ensures output == SplitLong(text, r.lo, r.hi, maxChars)
  {
    hide RFind;
    output := [];
    var splitStart := r.lo;
    ghost var all := SplitLong(text, r.lo, r.hi, maxChars);
    while splitStart < r.hi
      invariant r.lo <= splitStart <= r.hi
      invariant output + SplitLong(text, splitStart, r.hi, maxChars) == all
    {
      var splitEnd := if r.hi <= splitStart + maxChars then r.hi else splitStart + maxChars;
      if splitEnd < r.hi {
        var sentenceBreak := LastStop(text, splitStart, splitEnd);
        if sentenceBreak > splitStart + 80 {
          splitEnd := sentenceBreak + 1;
        }
      }
      assert splitEnd == SplitEnd(text, splitStart, r.hi, maxChars);
      AppendOne(output, Range(splitStart, splitEnd), SplitLong(text, splitEnd, r.hi, maxChars));
      output := output + [Range(splitStart, splitEnd)];
      splitStart := splitEnd;
    }
  }

  method BoundRange(text: string, r: Range, maxChars: nat) returns (output: seq<Range>)
    requires r.lo <= r.hi <= |text| && maxChars >= 1
    ensures output == Bounded(text, r, maxChars)
  {
    if r.hi - r.lo <= maxChars {
      return [r];
    }
    output := SplitPieces(text, r, maxChars);
  }

  method BoundRanges(text: string, chunkRanges: seq<Range>, maxChars: nat) returns (output: seq<Range>)
    requires InText(text, chunkRanges) && maxChars >= 1
    ensures output == BoundedAll(text, chunkRanges, maxChars)
  {
    output := [];
    assert chunkRanges[0..] == chunkRanges;
    ghost var all := BoundedAll(text, chunkRanges, maxChars);
    for i := 0 to |chunkRanges|
      invariant InText(text, chunkRanges[i..])
      invariant output + BoundedAll(text, chunkRanges[i..], maxChars) == all
    {
      Uncons(chunkRanges, i);
      var pieces := BoundRange(text, chunkRanges[i], maxChars);
      AppendMany(output, pieces, BoundedAll(text, chunkRanges[i + 1..], maxChars));
      output := output + pieces;
    }
  }

  method SplitChunkRanges(text: string, maxChars: nat) returns (output: seq<Range>)
    requires maxChars >= 1
    ensures output == RangesOf(text, maxChars)
  {
    var ps := ParagraphRanges(text);
    if ps == [] {
      return [];
    }
    var chunkRanges := MergeParagraphs(ps, maxChars);
    assert chunkRanges == Groups(text, maxChars);
    output := BoundRanges(text, chunkRanges, maxChars);
  }
}
