/** Bounded breadth-first expansion over a graph search: `build_associative_expansion` of
    brainstack/associative_expansion.py. */
module AssociativeExpansion {
  import opened Ordering
  import opened Results
  import opened Sequences
  import opened Text

  /** A graph row. `terms` is the token set of its text; the search index and the tokenizer are not
      part of this model. */
  datatype Row = Row(
    rowType: string, rowId: int, subject: string, objectValue: string, terms: set<string>,
    graphAuthority: bool, isCurrent: bool, happenedAt: string, keywordScore: real)

  /** An included row with how it was reached. The source keeps the parent by its key; the model keeps the
      parent row, and the number of the search that returned the row, beside it, here and for rejections. */
  datatype Hit = Hit(row: Row, score: real, parent: Row, anchor: string, depth: nat, call: nat)

  datatype Reason = DuplicateKey | InsufficientRelevance | NeedsStrongerRelevance

  datatype Rejection = Rejection(row: Row, parent: Row, anchor: string, depth: nat, call: nat, reason: Reason)

  datatype Hop = Hop(depth: nat, seedKey: string, anchor: string, candidateCount: nat)

  /** One run: the query's terms, the seeds, what the n-th search answers, and the three caps. */
  datatype Run = Run(
    query: set<string>, seeds: seq<Row>, search: (nat, string, nat) -> seq<Row>,
    maxDepth: nat, maxCandidates: nat, maxSearches: nat)

  datatype State = State(
    seen: set<string>, included: seq<Hit>, suppressed: seq<Rejection>, hops: seq<Hop>, searchCount: nat)

  datatype Probe = Probe(parent: Row, anchor: string, depth: nat, call: nat)

  function Key(row: Row): string {
    "graph:" + row.rowType + ":" + IntToString(row.rowId)
  }

  /** Keys tell rows apart exactly by type and id. */
  lemma KeyInjective(a: Row, b: Row)
    ensures Key(a) == Key(b) <==> a.rowType == b.rowType && a.rowId == b.rowId
  {
    if Key(a) == Key(b) {
      ColonIdInjective("graph:" + a.rowType, a.rowId, "graph:" + b.rowType, b.rowId);
      assert ("graph:" + a.rowType)[6..] == a.rowType && ("graph:" + b.rowType)[6..] == b.rowType;
    }
  }

  /** The normalised subject and object value, without short or repeated ones. */
  function Anchors(row: Row): seq<string> {
    var s, o := Normalize(row.subject), Normalize(row.objectValue);
    var first := if |s| >= 2 then [s] else [];
    if |o| < 2 || o in first then first else first + [o]
  }

  lemma AnchorsExactly(row: Row, a: string)
    ensures a in Anchors(row) <==> |a| >= 2 && (a == Normalize(row.subject) || a == Normalize(row.objectValue))
    ensures NoRepeats(Anchors(row))
    ensures |Normalize(row.subject)| >= 2 ==> Anchors(row)[0] == Normalize(row.subject)
  {
    hide Normalize;
  }

  function Limit(r: Run): nat {
    if r.maxCandidates * 2 < 8 then 8 else r.maxCandidates * 2
  }

  function Overlap(r: Run, row: Row): nat {
    |r.query * row.terms|
  }

  /** A value anchor of a row that is not a relation asks for two shared terms, any other for one. */
  function Threshold(parent: Row, anchor: string): nat {
    var t := Strip(parent.rowType);
    if t != "relation" && t != "inferred_relation" && anchor != Normalize(parent.subject) then 2 else 1
  }

  function Score(r: Run, row: Row, depth: nat): real {
    Overlap(r, row) as real
    + (if row.graphAuthority then 0.18 else 0.0)
    + (if row.isCurrent then 0.22 else 0.0)
    - (if depth <= 1 then 0.0 else (depth - 1) as real * 0.2)
  }

  /** Why a returned row is not included, if it is not. */
  function Refusal(r: Run, seen: set<string>, p: Probe, row: Row): Option<Reason> {
    if Key(row) in seen then Some(DuplicateKey)
    else if Overlap(r, row) < 1 then Some(InsufficientRelevance)
    else if Overlap(r, row) < Threshold(p.parent, p.anchor) then Some(NeedsStrongerRelevance)
    else None
  }

  function Judge(r: Run, st: State, p: Probe, row: Row): State {
    var refusal := Refusal(r, st.seen, p, row);
    if refusal.None? then
      st.(seen := st.seen + {Key(row)},
          included := st.included + [Hit(row, Score(r, row, p.depth), p.parent, p.anchor, p.depth, p.call)])
    else
      st.(seen := st.seen + {Key(row)},
          suppressed := st.suppressed + [Rejection(row, p.parent, p.anchor, p.depth, p.call, refusal.value)])
  }

  // ----- what every step keeps -----

  ghost function SeedKeys(r: Run): set<string> {
    set row | row in r.seeds :: Key(row)
  }

  ghost function IncludedKeys(hits: seq<Hit>): set<string> {
    set h | h in hits :: Key(h.row)
  }

  /** Keys rejected on their merits, not as duplicates. */
  ghost function RejectedKeys(rs: seq<Rejection>): set<string> {
    set x | x in rs && x.reason != DuplicateKey :: Key(x.row)
  }

  ghost predicate DistinctHits(hits: seq<Hit>) {
    forall i, j :: 0 <= i < j < |hits| ==> Key(hits[i].row) != Key(hits[j].row)
  }

  /** Seed keys, included keys and rejected keys are disjoint and together are the seen set; no key is
      included twice. */
  ghost predicate KeysExact(r: Run, st: State) {
    && st.seen == SeedKeys(r) + IncludedKeys(st.included) + RejectedKeys(st.suppressed)
    && SeedKeys(r) !! IncludedKeys(st.included)
    && SeedKeys(r) !! RejectedKeys(st.suppressed)
    && IncludedKeys(st.included) !! RejectedKeys(st.suppressed)
    && DistinctHits(st.included)
  }

  function RowsAt(hits: seq<Hit>, depth: nat): seq<Row> {
    if hits == [] then []
    else RowsAt(hits[..|hits| - 1], depth)
         + if hits[|hits| - 1].depth == depth then [hits[|hits| - 1].row] else []
  }

  /** The rows at distance `e` of the seeds: the seeds themselves, or the included rows of that depth. */
  function Level(r: Run, hits: seq<Hit>, e: nat): seq<Row> {
    if e == 0 then r.seeds else RowsAt(hits, e)
  }

  ghost predicate ReturnedBy(r: Run, call: nat, anchor: string, row: Row) {
    row in r.search(call, anchor, Limit(r))
  }

  /** Hop `call` is the search made for that parent and anchor at that depth. */
  ghost predicate MadeOn(hops: seq<Hop>, p: Probe) {
    && p.call < |hops|
    && hops[p.call].depth == p.depth && hops[p.call].seedKey == Key(p.parent) && hops[p.call].anchor == p.anchor
  }

  /** A search that was made, on an anchor of a row one level up. */
  ghost predicate GoodProbe(r: Run, hits: seq<Hit>, hops: seq<Hop>, p: Probe) {
    && 1 <= p.depth <= r.maxDepth
    && p.parent in Level(r, hits, p.depth - 1)
    && p.anchor in Anchors(p.parent)
    && MadeOn(hops, p)
  }

  ghost predicate GoodHop(r: Run, hits: seq<Hit>, hops: seq<Hop>, n: nat)
    requires n < |hops|
  {
    && hops[n].candidateCount == |r.search(n, hops[n].anchor, Limit(r))|
    && exists parent :: GoodProbe(r, hits, hops, Probe(parent, hops[n].anchor, hops[n].depth, n))
  }

  /** Every search was made on an anchor of a row one level up, and its hop counts its answer. */
  ghost predicate GoodHops(r: Run, st: State) {
    forall n :: 0 <= n < |st.hops| ==> GoodHop(r, st.included, st.hops, n)
  }

  /** The hit is relevant enough for its anchor and is in the answer of the search that its hop records. */
  ghost predicate GoodHit(r: Run, hits: seq<Hit>, hops: seq<Hop>, h: Hit) {
    && GoodProbe(r, hits, hops, Probe(h.parent, h.anchor, h.depth, h.call))
    && ReturnedBy(r, h.call, h.anchor, h.row)
    && Overlap(r, h.row) >= Threshold(h.parent, h.anchor)
    && h.score == Score(r, h.row, h.depth)
  }

  ghost predicate GoodHits(r: Run, st: State) {
    forall h :: h in st.included ==> GoodHit(r, st.included, st.hops, h)
  }

  /** The rejected row is in the answer of its search, too, and has the reason it is given. */
  ghost predicate GoodRejection(r: Run, hits: seq<Hit>, hops: seq<Hop>, seen: set<string>, x: Rejection) {
    && GoodProbe(r, hits, hops, Probe(x.parent, x.anchor, x.depth, x.call))
    && ReturnedBy(r, x.call, x.anchor, x.row)
    && match x.reason
       case DuplicateKey => Key(x.row) in seen
       case InsufficientRelevance => Overlap(r, x.row) == 0
       case NeedsStrongerRelevance => 1 <= Overlap(r, x.row) < Threshold(x.parent, x.anchor)
  }

  ghost predicate GoodRejections(r: Run, st: State) {
    forall x :: x in st.suppressed ==> GoodRejection(r, st.included, st.hops, st.seen, x)
  }

  function TotalCandidates(hops: seq<Hop>): nat {
    if hops == [] then 0 else TotalCandidates(hops[..|hops| - 1]) + hops[|hops| - 1].candidateCount
  }

  /** Everything the searches answered, in order. */
  function Answers(r: Run, hops: seq<Hop>): seq<Row> {
    if hops == [] then []
    else
      var n := |hops| - 1;
      Answers(r, hops[..n]) + r.search(n, hops[n].anchor, Limit(r))
  }

  /** The rows are dealt out, in order, to two lists. */
  ghost predicate Dealt(rows: seq<Row>, hits: seq<Hit>, rejections: seq<Rejection>) {
    && |rows| == |hits| + |rejections|
    && (rows == []
        || (hits != [] && hits[|hits| - 1].row == rows[|rows| - 1] && Dealt(rows[..|rows| - 1], hits[..|hits| - 1], rejections))
        || (rejections != [] && rejections[|rejections| - 1].row == rows[|rows| - 1]
            && Dealt(rows[..|rows| - 1], hits, rejections[..|rejections| - 1])))
  }

  /** One hop per search, within the caps. The rows answered are dealt out, in order, to the hits and the rejections;
      only of the last answer may some be left over, and only when the candidate cap is reached. */
  ghost predicate Counted(r: Run, st: State) {
    var answers, n := Answers(r, st.hops), |st.included| + |st.suppressed|;
    && |st.hops| == st.searchCount <= r.maxSearches
    && |st.included| <= r.maxCandidates
    && n <= |answers| && Dealt(answers[..n], st.included, st.suppressed)
    && (st.hops != [] ==> |Answers(r, st.hops[..|st.hops| - 1])| <= n)
    && (|st.included| < r.maxCandidates ==> n == |answers|)
  }

  /** What holds even between the rows of one search. */
  ghost predicate Kept(r: Run, st: State) {
    KeysExact(r, st) && GoodHops(r, st) && GoodHits(r, st) && GoodRejections(r, st)
  }

  ghost predicate Sound(r: Run, st: State) {
    Kept(r, st) && Counted(r, st)
  }

  predicate Active(r: Run, st: State) {
    st.searchCount < r.maxSearches && |st.included| < r.maxCandidates
  }

  // ----- one row -----

  lemma JudgeKeys(r: Run, st: State, p: Probe, row: Row)
    requires KeysExact(r, st)
    ensures KeysExact(r, Judge(r, st, p, row))
  {
    hide Overlap, Threshold, Score, Key;
    var st' := Judge(r, st, p, row);
    var refusal := Refusal(r, st.seen, p, row);
    if refusal.None? {
      var h := st'.included[|st.included|];
      assert IncludedKeys(st'.included) == IncludedKeys(st.included) + {Key(row)} by {
        forall k | k in IncludedKeys(st.included) ensures k in IncludedKeys(st'.included) {
          var g :| g in st.included && Key(g.row) == k;
          assert g in st'.included;
        }
        assert h in st'.included;
      }
      forall i, j | 0 <= i < j < |st'.included| ensures Key(st'.included[i].row) != Key(st'.included[j].row) {
        assert st'.included[i] in st.included;
      }
    } else {
      var x := st'.suppressed[|st.suppressed|];
      assert x in st'.suppressed;
      var added := if x.reason == DuplicateKey then {} else {Key(row)};
      assert RejectedKeys(st'.suppressed) == RejectedKeys(st.suppressed) + added by {
        forall k | k in RejectedKeys(st.suppressed) ensures k in RejectedKeys(st'.suppressed) {
          var y :| y in st.suppressed && y.reason != DuplicateKey && Key(y.row) == k;
          assert y in st'.suppressed;
        }
      }
    }
  }

  lemma RowsAtSnoc(hits: seq<Hit>, h: Hit, e: nat)
    ensures RowsAt(hits + [h], e) == RowsAt(hits, e) + if h.depth == e then [h.row] else []
  {
    assert (hits + [h])[..|hits|] == hits;
  }

  /** Judging a row adds at most one hit. */
  lemma JudgedHits(r: Run, st: State, p: Probe, row: Row)
    ensures var st' := Judge(r, st, p, row);
            st'.hops == st.hops && (st'.included == st.included || exists h :: st'.included == st.included + [h])
  {
  }

  lemma LevelGrows(r: Run, hits: seq<Hit>, h: Hit, e: nat, row: Row)
    requires row in Level(r, hits, e)
    ensures row in Level(r, hits + [h], e)
  {
    hide RowsAt;
    RowsAtSnoc(hits, h, e);
  }

  /** Nothing that is added to the hits or the hops undoes a search that was made. */
  lemma ProbeStays(r: Run, hits: seq<Hit>, hits': seq<Hit>, hops: seq<Hop>, hops': seq<Hop>, p: Probe)
    requires GoodProbe(r, hits, hops, p) && hops <= hops'
    requires hits' == hits || exists h :: hits' == hits + [h]
    ensures GoodProbe(r, hits', hops', p)
  {
    hide Anchors, Key, Level;
    assert hops'[p.call] == hops[p.call];
    if hits' != hits {
      var h :| hits' == hits + [h];
      LevelGrows(r, hits, h, p.depth - 1, p.parent);
    }
  }

  lemma HopStays(r: Run, hits: seq<Hit>, hits': seq<Hit>, hops: seq<Hop>, hops': seq<Hop>, n: nat)
    requires n < |hops| && hops <= hops' && GoodHop(r, hits, hops, n)
    requires hits' == hits || exists h :: hits' == hits + [h]
    ensures GoodHop(r, hits', hops', n)
  {
    hide GoodProbe;
    var parent :| GoodProbe(r, hits, hops, Probe(parent, hops[n].anchor, hops[n].depth, n));
    ProbeStays(r, hits, hits', hops, hops', Probe(parent, hops[n].anchor, hops[n].depth, n));
  }

  lemma JudgeHops(r: Run, st: State, p: Probe, row: Row)
    requires GoodHops(r, st)
    ensures GoodHops(r, Judge(r, st, p, row))
  {
    hide GoodHop, Judge;
    JudgedHits(r, st, p, row);
    var st' := Judge(r, st, p, row);
    forall n | 0 <= n < |st'.hops| ensures GoodHop(r, st'.included, st'.hops, n) {
      HopStays(r, st.included, st'.included, st.hops, st'.hops, n);
    }
  }

  lemma JudgeHits(r: Run, st: State, p: Probe, row: Row)
    requires GoodHits(r, st) && GoodProbe(r, st.included, st.hops, p) && ReturnedBy(r, p.call, p.anchor, row)
    ensures GoodHits(r, Judge(r, st, p, row))
    ensures var st' := Judge(r, st, p, row); GoodProbe(r, st'.included, st'.hops, p)
  {
    hide Overlap, Threshold, Score, Key, GoodProbe, ReturnedBy;
    JudgedHits(r, st, p, row);
    var st' := Judge(r, st, p, row);
    ProbeStays(r, st.included, st'.included, st.hops, st'.hops, p);
    forall h | h in st'.included ensures GoodHit(r, st'.included, st'.hops, h) {
      if h in st.included {
        ProbeStays(r, st.included, st'.included, st.hops, st'.hops, Probe(h.parent, h.anchor, h.depth, h.call));
      } else {
        assert h == st'.included[|st.included|];
      }
    }
  }

  lemma JudgeRejections(r: Run, st: State, p: Probe, row: Row)
    requires GoodRejections(r, st) && GoodProbe(r, st.included, st.hops, p) && ReturnedBy(r, p.call, p.anchor, row)
    ensures GoodRejections(r, Judge(r, st, p, row))
  {
    hide Overlap, Threshold, Score, Key, GoodProbe, ReturnedBy;
    JudgedHits(r, st, p, row);
    var st' := Judge(r, st, p, row);
    ProbeStays(r, st.included, st'.included, st.hops, st'.hops, p);
    forall x | x in st'.suppressed ensures GoodRejection(r, st'.included, st'.hops, st'.seen, x) {
      if x in st.suppressed {
        ProbeStays(r, st.included, st'.included, st.hops, st'.hops, Probe(x.parent, x.anchor, x.depth, x.call));
      } else {
        assert x == st'.suppressed[|st.suppressed|];
      }
    }
  }

  // ----- one search -----

  /** The new hits of a stretch of the run are all at depth `d`, and `found` lists their rows. */
  ghost predicate Extends(st: State, st': State, found: seq<Row>, d: nat) {
    && st.included <= st'.included && |st'.included| == |st.included| + |found|
    && st.hops <= st'.hops && st.searchCount <= st'.searchCount
    && forall i :: |st.included| <= i < |st'.included| ==>
         st'.included[i].row == found[i - |st.included|] && st'.included[i].depth == d
  }

  lemma ExtendsTransitive(a: State, b: State, c: State, f: seq<Row>, g: seq<Row>, d: nat)
    requires Extends(a, b, f, d) && Extends(b, c, g, d)
    ensures Extends(a, c, f + g, d)
  {
    forall i | |a.included| <= i < |c.included|
      ensures c.included[i].row == (f + g)[i - |a.included|] && c.included[i].depth == d
    {
      if i < |b.included| {
        assert c.included[i] == b.included[i];
      }
    }
  }

  lemma ExtendsRefl(st: State, d: nat)
    ensures Extends(st, st, [], d)
  {
  }

  lemma ExtendsHops(st: State, st': State, found: seq<Row>, d: nat)
    requires Extends(st, st', found, d)
    ensures st.hops <= st'.hops
  {
  }

  lemma JudgeExtends(r: Run, st: State, p: Probe, row: Row)
    ensures var st' := Judge(r, st, p, row);
            && Extends(st, st', if Refusal(r, st.seen, p, row).None? then [row] else [], p.depth)
            && |st'.included| == |st.included| + (if Refusal(r, st.seen, p, row).None? then 1 else 0)
            && st'.hops == st.hops && st'.searchCount == st.searchCount
  {
    hide Refusal, Score, Key;
  }

  lemma JudgeDeals(r: Run, st: State, p: Probe, row: Row, rows: seq<Row>)
    requires Dealt(rows, st.included, st.suppressed)
    ensures var st' := Judge(r, st, p, row); Dealt(rows + [row], st'.included, st'.suppressed)
  {
    hide Refusal, Score, Key;
    var st' := Judge(r, st, p, row);
    assert st'.included[..|st.included|] == st.included && st'.suppressed[..|st.suppressed|] == st.suppressed;
    assert (rows + [row])[..|rows|] == rows;
  }

  /** One row of an answer. */
  lemma JudgeKeeps(r: Run, st: State, p: Probe, row: Row)
    requires Kept(r, st) && GoodProbe(r, st.included, st.hops, p) && ReturnedBy(r, p.call, p.anchor, row)
    ensures var st' := Judge(r, st, p, row); Kept(r, st') && GoodProbe(r, st'.included, st'.hops, p)
  {
    hide KeysExact, GoodHops, GoodHits, GoodRejections, GoodProbe, ReturnedBy, Judge;
    JudgeKeys(r, st, p, row);
    JudgeHops(r, st, p, row);
    JudgeHits(r, st, p, row);
    JudgeRejections(r, st, p, row);
  }

  /** The loop over the rows of one search, left when the candidate cap is reached. */
  method JudgeRows(r: Run, st0: State, p: Probe, rows: seq<Row>, ghost before: seq<Row>)
    returns (st: State, found: seq<Row>, ghost n: nat)
    requires Kept(r, st0) && GoodProbe(r, st0.included, st0.hops, p)
    requires forall row :: row in rows ==> ReturnedBy(r, p.call, p.anchor, row)
    requires |st0.included| < r.maxCandidates && Dealt(before, st0.included, st0.suppressed)
    ensures Kept(r, st)
    ensures Extends(st0, st, found, p.depth) && st.hops == st0.hops && st.searchCount == st0.searchCount
    ensures |st.included| <= r.maxCandidates
    ensures n <= |rows| && Dealt(before + rows[..n], st.included, st.suppressed)
    ensures |st.included| < r.maxCandidates ==> n == |rows|
  {
    hide Kept, GoodProbe, Refusal, ReturnedBy, Judge, Extends, Dealt;
    st, found, n := st0, [], 0;
    ExtendsRefl(st0, p.depth);
    assert before + rows[..0] == before;
    for i := 0 to |rows|
      invariant Kept(r, st) && GoodProbe(r, st.included, st.hops, p)
      invariant Extends(st0, st, found, p.depth) && st.hops == st0.hops && st.searchCount == st0.searchCount
      invariant |st.included| < r.maxCandidates
      invariant n == i && Dealt(before + rows[..n], st.included, st.suppressed)
    {
      var row := rows[i];
      JudgeKeeps(r, st, p, row);
      JudgeExtends(r, st, p, row);
      JudgeDeals(r, st, p, row, before + rows[..i]);
      assert before + rows[..i] + [row] == before + rows[..i + 1];
      var more := if Refusal(r, st.seen, p, row).None? then [row] else [];
      ExtendsTransitive(st0, st, Judge(r, st, p, row), found, more, p.depth);
      st := Judge(r, st, p, row);
      found := found + more;
      n := i + 1;
      if |st.included| >= r.maxCandidates {
        break;
      }
    }
  }

  lemma AnswersSnoc(r: Run, hops: seq<Hop>, h: Hop)
    ensures Answers(r, hops + [h]) == Answers(r, hops) + r.search(|hops|, h.anchor, Limit(r))
    ensures (hops + [h])[..|hops|] == hops
  {
  }

  ghost predicate HasHop(hops: seq<Hop>, depth: nat, seedKey: string, anchor: string) {
    exists i :: 0 <= i < |hops| && hops[i].depth == depth && hops[i].seedKey == seedKey && hops[i].anchor == anchor
  }

  /** Making a search changes nothing but the hop list and the count. */
  lemma SearchBegins(r: Run, st: State, p: Probe, hop: Hop, st': State)
    requires Kept(r, st) && st' == st.(hops := st.hops + [hop], searchCount := st.searchCount + 1)
    requires 1 <= p.depth <= r.maxDepth && p.parent in Level(r, st.included, p.depth - 1)
    requires p.anchor in Anchors(p.parent) && p.call == |st.hops|
    requires hop == Hop(p.depth, Key(p.parent), p.anchor, |r.search(p.call, p.anchor, Limit(r))|)
    ensures Kept(r, st') && GoodProbe(r, st'.included, st'.hops, p)
  {
    hide Anchors, Level, Key, GoodProbe, KeysExact, GoodHops, GoodHits, GoodRejections;
    NewProbe(r, st, p, hop);
    NewHop(r, st, p, hop, st');
    HitsStay(r, st, st');
    KeysStay(r, st, st');
  }

  lemma NewProbe(r: Run, st: State, p: Probe, hop: Hop)
    requires 1 <= p.depth <= r.maxDepth && p.parent in Level(r, st.included, p.depth - 1)
    requires p.anchor in Anchors(p.parent) && p.call == |st.hops|
    requires hop.depth == p.depth && hop.seedKey == Key(p.parent) && hop.anchor == p.anchor
    ensures GoodProbe(r, st.included, st.hops + [hop], p)
  {
    hide Anchors, Level, Key;
  }

  lemma NewHop(r: Run, st: State, p: Probe, hop: Hop, st': State)
    requires GoodHops(r, st) && st'.hops == st.hops + [hop] && st'.included == st.included
    requires p.call == |st.hops| && hop.depth == p.depth && hop.anchor == p.anchor
    requires hop.candidateCount == |r.search(p.call, p.anchor, Limit(r))|
    requires GoodProbe(r, st'.included, st'.hops, p)
    ensures GoodHops(r, st')
  {
    hide GoodProbe, Limit;
    forall n | 0 <= n < |st'.hops| ensures GoodHop(r, st'.included, st'.hops, n) {
      if n < |st.hops| {
        hide GoodHop;
        HopStays(r, st.included, st'.included, st.hops, st'.hops, n);
      } else {
        assert GoodProbe(r, st'.included, st'.hops, Probe(p.parent, st'.hops[n].anchor, st'.hops[n].depth, n));
      }
    }
  }

  lemma KeysStay(r: Run, st: State, st': State)
    requires KeysExact(r, st)
    requires st'.seen == st.seen && st'.included == st.included && st'.suppressed == st.suppressed
    ensures KeysExact(r, st')
  {
  }

  lemma HitsStay(r: Run, st: State, st': State)
    requires GoodHits(r, st) && GoodRejections(r, st) && st.hops <= st'.hops
    requires st'.seen == st.seen && st'.included == st.included && st'.suppressed == st.suppressed
    ensures GoodHits(r, st') && GoodRejections(r, st')
  {
    hide GoodProbe, ReturnedBy, Overlap, Threshold, Score, Key;
    forall h | h in st'.included ensures GoodHit(r, st'.included, st'.hops, h) {
      ProbeStays(r, st.included, st'.included, st.hops, st'.hops, Probe(h.parent, h.anchor, h.depth, h.call));
    }
    forall x | x in st'.suppressed ensures GoodRejection(r, st'.included, st'.hops, st'.seen, x) {
      ProbeStays(r, st.included, st'.included, st.hops, st'.hops, Probe(x.parent, x.anchor, x.depth, x.call));
    }
  }

  lemma HopAdded(hops: seq<Hop>, h: Hop)
    ensures HasHop(hops + [h], h.depth, h.seedKey, h.anchor)
  {
    assert (hops + [h])[|hops|] == h;
  }

  /** The answer to one more search is dealt out after the earlier ones. */
  lemma CountedAfter(r: Run, st0: State, st: State, hop: Hop, n: nat)
    requires Counted(r, st0) && Active(r, st0)
    requires st.hops == st0.hops + [hop] && st.searchCount == st0.searchCount + 1
    requires |st.included| <= r.maxCandidates
    requires var answer := r.search(|st0.hops|, hop.anchor, Limit(r));
             && n <= |answer| && Dealt(Answers(r, st0.hops) + answer[..n], st.included, st.suppressed)
             && (|st.included| < r.maxCandidates ==> n == |answer|)
    ensures Counted(r, st)
  {
    DealtSize(Answers(r, st0.hops) + r.search(|st0.hops|, hop.anchor, Limit(r))[..n], st.included, st.suppressed);
    hide Dealt, Answers, Limit;
    AnswersSnoc(r, st0.hops, hop);
    var before, answer := Answers(r, st0.hops), r.search(|st0.hops|, hop.anchor, Limit(r));
    assert (before + answer)[..|before| + n] == before + answer[..n];
  }

  lemma DealtSize(rows: seq<Row>, hits: seq<Hit>, rejections: seq<Rejection>)
    requires Dealt(rows, hits, rejections)
    ensures |rows| == |hits| + |rejections|
  {
  }

  lemma AllDealt(r: Run, st: State)
    requires Counted(r, st) && Active(r, st)
    ensures Dealt(Answers(r, st.hops), st.included, st.suppressed)
  {
    hide Dealt, Answers;
    var answers := Answers(r, st.hops);
    assert answers[..|answers|] == answers;
  }

  lemma SearchEnds(r: Run, st0: State, st1: State, st: State, hop: Hop, found: seq<Row>, n: nat)
    requires Sound(r, st0) && Active(r, st0) && Kept(r, st) && Extends(st1, st, found, hop.depth)
    requires st1 == st0.(hops := st0.hops + [hop], searchCount := st0.searchCount + 1)
    requires st.hops == st1.hops && st.searchCount == st1.searchCount && |st.included| <= r.maxCandidates
    requires var answer := r.search(|st0.hops|, hop.anchor, Limit(r));
             && n <= |answer| && Dealt(Answers(r, st0.hops) + answer[..n], st.included, st.suppressed)
             && (|st.included| < r.maxCandidates ==> n == |answer|)
    ensures Sound(r, st) && Extends(st0, st, found, hop.depth) && HasHop(st.hops, hop.depth, hop.seedKey, hop.anchor)
  {
    hide HasHop, Extends, Dealt, Answers, Counted, Kept, Limit;
    HopAdded(st0.hops, hop);
    CountedAfter(r, st0, st, hop, n);
    ExtendsEarlier(st0, st1, st, found, hop.depth);
  }

  lemma SearchNumber(r: Run, st: State)
    requires Sound(r, st)
    ensures |st.hops| == st.searchCount && Kept(r, st) && Counted(r, st)
    ensures Active(r, st) ==> Dealt(Answers(r, st.hops), st.included, st.suppressed)
  {
    hide Kept, Dealt, Answers;
    if Active(r, st) {
      AllDealt(r, st);
    }
  }

  // ----- the order of the searches -----

  /** Where a search is made: at which depth, for which row and on which anchor. */
  datatype Place = Place(depth: nat, seedKey: string, anchor: string)

  function Places(hops: seq<Hop>): (ps: seq<Place>)
    ensures |ps| == |hops|
  {
    seq(|hops|, i requires 0 <= i < |hops| => Place(hops[i].depth, hops[i].seedKey, hops[i].anchor))
  }

  lemma PlacesSnoc(hops: seq<Hop>, h: Hop)
    ensures Places(hops + [h]) == Places(hops) + [Place(h.depth, h.seedKey, h.anchor)]
  {
  }

  /** The places for one row: its anchors in order. */
  function RowPlaces(row: Row, depth: nat): (ps: seq<Place>) {
    var anchors := Anchors(row);
    seq(|anchors|, i requires 0 <= i < |anchors| => Place(depth, Key(row), anchors[i]))
  }

  /** The places for a level: row by row. */
  function LevelPlaces(rows: seq<Row>, depth: nat): seq<Place> {
    if rows == [] then [] else LevelPlaces(rows[..|rows| - 1], depth) + RowPlaces(rows[|rows| - 1], depth)
  }

  /** The places for the first `d` depths: level by level, breadth first. */
  function AllPlaces(r: Run, hits: seq<Hit>, d: nat): seq<Place> {
    if d == 0 then [] else AllPlaces(r, hits, d - 1) + LevelPlaces(Level(r, hits, d - 1), d)
  }

  method ExpandAnchor(r: Run, st0: State, parent: Row, anchor: string, depth: nat) returns (st: State, found: seq<Row>)
    requires Sound(r, st0) && Active(r, st0)
    requires 1 <= depth <= r.maxDepth && parent in Level(r, st0.included, depth - 1) && anchor in Anchors(parent)
    ensures Sound(r, st) && Extends(st0, st, found, depth)
    ensures HasHop(st.hops, depth, Key(parent), anchor)
    ensures Places(st.hops) == Places(st0.hops) + [Place(depth, Key(parent), anchor)]
  {
    hide Anchors, Level, Key, HasHop, Extends, Dealt, Answers, Counted, Kept, Sound, GoodProbe, Limit, Places;
    SearchNumber(r, st0);
    var call := st0.searchCount;
    var rows := r.search(call, anchor, Limit(r));
    var hop := Hop(depth, Key(parent), anchor, |rows|);
    var st1 := st0.(hops := st0.hops + [hop], searchCount := call + 1);
    var p := Probe(parent, anchor, depth, call);
    SearchBegins(r, st0, p, hop, st1);
    ghost var n;
    st, found, n := JudgeRows(r, st1, p, rows, Answers(r, st0.hops));
    SearchEnds(r, st0, st1, st, hop, found, n);
    PlacesSnoc(st0.hops, hop);
  }

  lemma ExtendsEarlier(st0: State, st1: State, st: State, found: seq<Row>, d: nat)
    requires Extends(st1, st, found, d) && st1.included == st0.included && st0.hops <= st1.hops && st0.searchCount <= st1.searchCount
    ensures Extends(st0, st, found, d)
  {
  }

  // ----- one parent, one level -----

  /** Every anchor of the row has been searched for at the depth below it. */
  ghost predicate Searched(hops: seq<Hop>, row: Row, e: nat) {
    forall a :: a in Anchors(row) ==> HasHop(hops, e + 1, Key(row), a)
  }

  lemma HopsGrow(a: seq<Hop>, b: seq<Hop>, depth: nat, seedKey: string, anchor: string)
    requires a <= b && HasHop(a, depth, seedKey, anchor)
    ensures HasHop(b, depth, seedKey, anchor)
  {
    var i :| 0 <= i < |a| && a[i].depth == depth && a[i].seedKey == seedKey && a[i].anchor == anchor;
    assert b[i] == a[i];
  }

  lemma SearchedGrows(a: seq<Hop>, b: seq<Hop>, row: Row, e: nat)
    requires a <= b && Searched(a, row, e)
    ensures Searched(b, row, e)
  {
    hide Anchors, Key, HasHop;
    forall x | x in Anchors(row) ensures HasHop(b, e + 1, Key(row), x) {
      HopsGrow(a, b, e + 1, Key(row), x);
    }
  }

  /** New hits at depth `d` leave every other level alone and append their rows to level `d`. */
  lemma {:induction false} LevelAfter(r: Run, st: State, st': State, found: seq<Row>, d: nat, e: nat)
    requires Extends(st, st', found, d) && d >= 1
    ensures Level(r, st'.included, e) == Level(r, st.included, e) + if e == d then found else []
    decreases |found|
  {
    if e == 0 {
    } else if found == [] {
      assert st'.included == st.included;
    } else {
      var n, k := |st'.included| - 1, |found| - 1;
      var mid := st'.(included := st'.included[..n]);
      assert st'.included == mid.included + [st'.included[n]];
      OneFewer(st, st', found, d, mid);
      LevelAfter(r, st, mid, found[..k], d, e);
      RowsAtSnoc(mid.included, st'.included[n], e);
      assert st'.included[n].row == found[k] && st'.included[n].depth == d;
      assert found[..k] + [found[k]] == found;
    }
  }

  lemma LevelKept(r: Run, st: State, st': State, found: seq<Row>, d: nat)
    requires Extends(st, st', found, d) && d >= 1
    ensures Level(r, st'.included, d - 1) == Level(r, st.included, d - 1)
  {
    hide Level, Extends;
    LevelAfter(r, st, st', found, d, d - 1);
  }

  lemma OneFewer(st: State, st': State, found: seq<Row>, d: nat, mid: State)
    requires Extends(st, st', found, d) && found != []
    requires mid == st'.(included := st'.included[..|st'.included| - 1])
    ensures Extends(st, mid, found[..|found| - 1], d)
  {
    forall i | |st.included| <= i < |mid.included|
      ensures mid.included[i].row == found[..|found| - 1][i - |st.included|] && mid.included[i].depth == d
    {
      assert mid.included[i] == st'.included[i];
    }
  }

  method ExpandParent(r: Run, st0: State, parent: Row, depth: nat) returns (st: State, found: seq<Row>)
    requires Sound(r, st0) && 1 <= depth <= r.maxDepth && parent in Level(r, st0.included, depth - 1)
    ensures Sound(r, st) && Extends(st0, st, found, depth)
    ensures Active(r, st) ==> Searched(st.hops, parent, depth - 1)
    ensures Follows(Places(st0.hops), Places(st.hops), RowPlaces(parent, depth), Active(r, st))
  {
    hide Sound, Anchors, Level, Key, HasHop, Extends, Active, Searched, Places, RowPlaces, Follows;
    st, found := st0, [];
    ExtendsRefl(st0, depth);
    var anchors := Anchors(parent);
    ghost var places := RowPlaces(parent, depth);
    RowPlacesAt(parent, depth);
    assert Places(st0.hops) + places[..0] == Places(st0.hops);
    for i := 0 to |anchors|
      invariant Sound(r, st) && Extends(st0, st, found, depth) && parent in Level(r, st.included, depth - 1)
      invariant forall j :: 0 <= j < i ==> HasHop(st.hops, depth, Key(parent), anchors[j])
      invariant Places(st.hops) == Places(st0.hops) + places[..i]
    {
      if !Active(r, st) {
        FollowsSoFar(Places(st0.hops), places, i);
        return;
      }
      var st1, more := ExpandAnchor(r, st, parent, anchors[i], depth);
      ExtendsTransitive(st0, st, st1, found, more, depth);
      LevelKept(r, st, st1, more, depth);
      ExtendsHops(st, st1, more, depth);
      forall j | 0 <= j < i ensures HasHop(st1.hops, depth, Key(parent), anchors[j]) {
        HopsGrow(st.hops, st1.hops, depth, Key(parent), anchors[j]);
      }
      assert Places(st0.hops) + places[..i] + [places[i]] == Places(st0.hops) + places[..i + 1];
      st, found := st1, found + more;
    }
    AllSearched(st.hops, parent, depth - 1);
    assert places[..|anchors|] == places;
    FollowsAll(Places(st0.hops), places, Active(r, st));
  }

  lemma RowPlacesAt(row: Row, depth: nat)
    ensures |RowPlaces(row, depth)| == |Anchors(row)|
    ensures forall i :: 0 <= i < |Anchors(row)| ==> RowPlaces(row, depth)[i] == Place(depth, Key(row), Anchors(row)[i])
  {
    hide Anchors, Key;
  }

  /** Some of the places have been searched since, from the first on, and all of them if the run is not stopped. */
  ghost predicate Follows(before: seq<Place>, after: seq<Place>, places: seq<Place>, active: bool) {
    before <= after && after <= before + places && (active ==> after == before + places)
  }

  lemma FollowsSoFar(before: seq<Place>, places: seq<Place>, i: nat)
    requires i <= |places|
    ensures Follows(before, before + places[..i], places, false)
  {
  }

  lemma FollowsAll(before: seq<Place>, places: seq<Place>, active: bool)
    ensures Follows(before, before + places, places, active)
  {
  }

  lemma FollowsNothing(before: seq<Place>, active: bool)
    ensures Follows(before, before, [], active)
  {
  }

  /** More places after all of the first ones, or none when the run is stopped. */
  lemma FollowsOn(a: seq<Place>, b: seq<Place>, c: seq<Place>, first: seq<Place>, more: seq<Place>, active: bool)
    requires Follows(a, b, first, true) && Follows(b, c, more, active)
    ensures Follows(a, c, first + more, active)
  {
    AppendMany(a, first, more);
  }

  lemma FollowsLess(a: seq<Place>, b: seq<Place>, first: seq<Place>, more: seq<Place>)
    requires Follows(a, b, first, false)
    ensures Follows(a, b, first + more, false)
  {
    AppendMany(a, first, more);
  }

  lemma AllSearched(hops: seq<Hop>, row: Row, e: nat)
    requires var anchors := Anchors(row); forall j :: 0 <= j < |anchors| ==> HasHop(hops, e + 1, Key(row), anchors[j])
    ensures Searched(hops, row, e)
  {
    hide Anchors, Key, HasHop;
    forall a | a in Anchors(row) ensures HasHop(hops, e + 1, Key(row), a) {
      var j :| 0 <= j < |Anchors(row)| && Anchors(row)[j] == a;
    }
  }

  method ExpandLevel(r: Run, st0: State, frontier: seq<Row>, depth: nat) returns (st: State, next: seq<Row>)
    requires Sound(r, st0) && 1 <= depth <= r.maxDepth && frontier == Level(r, st0.included, depth - 1)
    ensures Sound(r, st) && Extends(st0, st, next, depth)
    ensures Active(r, st) ==> forall row :: row in frontier ==> Searched(st.hops, row, depth - 1)
    ensures Follows(Places(st0.hops), Places(st.hops), LevelPlaces(frontier, depth), Active(r, st))
    ensures !Active(r, st0) ==> st == st0
  {
    hide Sound, Level, Searched, Extends, Active, Follows, Places, RowPlaces, LevelPlaces;
    st, next := st0, [];
    ExtendsRefl(st0, depth);
    NoPlaces(depth);
    FollowsNothing(Places(st0.hops), Active(r, st));
    for i := 0 to |frontier|
      invariant Sound(r, st) && Extends(st0, st, next, depth)
      invariant Level(r, st.included, depth - 1) == frontier
      invariant Active(r, st) ==> forall j :: 0 <= j < i ==> Searched(st.hops, frontier[j], depth - 1)
      invariant Follows(Places(st0.hops), Places(st.hops), LevelPlaces(frontier[..i], depth), Active(r, st))
      invariant !Active(r, st0) ==> st == st0
    {
      PlacesRest(frontier, i, depth);
      if !Active(r, st) {
        FollowsLess(Places(st0.hops), Places(st.hops), LevelPlaces(frontier[..i], depth), PlacesFrom(frontier, i, depth));
        return;
      }
      var st1, more := ExpandParent(r, st, frontier[i], depth);
      FollowsOn(Places(st0.hops), Places(st.hops), Places(st1.hops), LevelPlaces(frontier[..i], depth),
                RowPlaces(frontier[i], depth), Active(r, st1));
      ExtendsTransitive(st0, st, st1, next, more, depth);
      LevelKept(r, st, st1, more, depth);
      ExtendsHops(st, st1, more, depth);
      forall j | 0 <= j < i ensures Searched(st1.hops, frontier[j], depth - 1) {
        SearchedGrows(st.hops, st1.hops, frontier[j], depth - 1);
      }
      st, next := st1, next + more;
    }
    assert frontier[..|frontier|] == frontier;
    forall row | Active(r, st) && row in frontier ensures Searched(st.hops, row, depth - 1) {
      var j :| 0 <= j < |frontier| && frontier[j] == row;
    }
  }

  lemma NoPlaces(depth: nat)
    ensures LevelPlaces([], depth) == []
  {
  }

  /** The places of the rows from number `i` on. */
  ghost function PlacesFrom(rows: seq<Row>, i: nat, depth: nat): seq<Place>
    requires i <= |rows|
    decreases |rows| - i
  {
    if i == |rows| then [] else RowPlaces(rows[i], depth) + PlacesFrom(rows, i + 1, depth)
  }

  lemma {:induction false} PlacesRest(rows: seq<Row>, i: nat, depth: nat)
    requires i < |rows|
    ensures LevelPlaces(rows[..i + 1], depth) == LevelPlaces(rows[..i], depth) + RowPlaces(rows[i], depth)
    ensures LevelPlaces(rows, depth) == LevelPlaces(rows[..i], depth) + PlacesFrom(rows, i, depth)
    decreases |rows| - i
  {
    hide RowPlaces;
    assert rows[..i + 1][..i] == rows[..i];
    AppendMany(LevelPlaces(rows[..i], depth), RowPlaces(rows[i], depth), PlacesFrom(rows, i + 1, depth));
    if i + 1 < |rows| {
      PlacesRest(rows, i + 1, depth);
    } else {
      assert rows[..i + 1] == rows && RowPlaces(rows[i], depth) + [] == RowPlaces(rows[i], depth);
    }
  }

  // ----- the whole run -----

  /** Everything at a depth below `d` has had all its anchors searched. */
  ghost predicate Exhausted(r: Run, st: State, d: nat) {
    forall e: nat, row :: e < d && row in Level(r, st.included, e) ==> Searched(st.hops, row, e)
  }

  ghost predicate NoDeeper(hits: seq<Hit>, d: nat) {
    forall h :: h in hits ==> h.depth <= d
  }

  lemma {:induction false} NothingAt(hits: seq<Hit>, d: nat, e: nat)
    requires NoDeeper(hits, d) && d < e
    ensures RowsAt(hits, e) == []
  {
    if hits != [] {
      assert hits[|hits| - 1] in hits;
      NothingAt(hits[..|hits| - 1], d, e);
    }
  }

  lemma ExtendedDepth(st: State, st': State, found: seq<Row>, d: nat)
    requires d >= 1 && Extends(st, st', found, d) && NoDeeper(st.included, d - 1)
    ensures NoDeeper(st'.included, d)
  {
    forall h | h in st'.included ensures h.depth <= d {
      var i :| 0 <= i < |st'.included| && st'.included[i] == h;
      if i < |st.included| {
        assert st.included[i] == h && h in st.included;
      } else {
        assert st'.included[i].depth == d;
      }
    }
  }

  lemma ExhaustedOneMore(r: Run, st: State, st': State, frontier: seq<Row>, found: seq<Row>, d: nat)
    requires d >= 1 && Extends(st, st', found, d) && frontier == Level(r, st.included, d - 1)
    requires Exhausted(r, st, d - 1)
    requires forall row :: row in frontier ==> Searched(st'.hops, row, d - 1)
    ensures Exhausted(r, st', d)
  {
    hide Searched, Level;
    forall e: nat, row | e < d && row in Level(r, st'.included, e) ensures Searched(st'.hops, row, e) {
      LevelAfter(r, st, st', found, d, e);
      if e < d - 1 {
        SearchedGrows(st.hops, st'.hops, row, e);
      }
    }
  }

  function Start(r: Run): State {
    State(set row | row in r.seeds :: Key(row), [], [], [], 0)
  }

  lemma StartSound(r: Run)
    ensures Sound(r, Start(r))
  {
    hide Key;
  }

  method Expand(r: Run) returns (st: State)
    ensures Sound(r, st)
    ensures Active(r, st) ==> Exhausted(r, st, r.maxDepth)
    ensures Follows([], Places(st.hops), AllPlaces(r, st.included, r.maxDepth), Active(r, st))
  {
    StartSound(r);
    hide Sound, Level, Searched, Places, AllPlaces, LevelPlaces, Follows;
    st := Start(r);
    var frontier := r.seeds;
    var depth := 1;
    assert frontier == Level(r, st.included, 0) by { SeedLevel(r, st.included); }
    StartPlaces(r);
    while depth <= r.maxDepth
      invariant 1 <= depth <= r.maxDepth + 1
      invariant Sound(r, st) && NoDeeper(st.included, depth - 1)
      invariant frontier == Level(r, st.included, depth - 1)
      invariant Active(r, st) ==> Exhausted(r, st, depth - 1)
      invariant Follows([], Places(st.hops), AllPlaces(r, st.included, depth - 1), Active(r, st))
    {
      ghost var before := st;
      var next;
      st, next := ExpandLevel(r, st, frontier, depth);
      ExtendedDepth(before, st, next, depth);
      LevelAfter(r, before, st, next, depth, depth);
      NothingAtLevel(r, before.included, depth);
      OneMoreLevel(r, before, st, frontier, next, depth);
      if Active(r, st) {
        StillActive(r, before, st, next, depth);
        ExhaustedOneMore(r, before, st, frontier, next, depth);
      }
      frontier := next;
      if frontier == [] || !Active(r, st) {
        if Active(r, st) {
          NothingBelow(r, st, depth, r.maxDepth);
          NothingDeeper(r, st, depth);
        }
        PlacesBelow(r, st, depth, r.maxDepth);
        break;
      }
      depth := depth + 1;
    }
  }

  lemma StartPlaces(r: Run)
    ensures Follows([], Places(Start(r).hops), AllPlaces(r, Start(r).included, 0), Active(r, Start(r)))
    ensures r.maxDepth >= 0
  {
  }

  /** New hits at depth `d` do not change the places of the depths up to `d`. */
  lemma {:induction false} PlacesKept(r: Run, st: State, st': State, found: seq<Row>, d: nat, m: nat)
    requires Extends(st, st', found, d) && m <= d && d >= 1
    ensures AllPlaces(r, st'.included, m) == AllPlaces(r, st.included, m)
  {
    hide Extends, Level, LevelPlaces;
    if m > 0 {
      PlacesKept(r, st, st', found, d, m - 1);
      LevelAfter(r, st, st', found, d, m - 1);
      assert Level(r, st.included, m - 1) + [] == Level(r, st.included, m - 1);
    }
  }

  lemma NothingDeeper(r: Run, st: State, d: nat)
    requires d >= 1 && NoDeeper(st.included, d) && Level(r, st.included, d) == []
    ensures forall e: nat :: d <= e ==> Level(r, st.included, e) == []
  {
    forall e: nat | d < e ensures Level(r, st.included, e) == [] {
      NothingAt(st.included, d, e);
    }
  }

  lemma PlacesUnfold(r: Run, hits: seq<Hit>, d: nat)
    requires d >= 1
    ensures AllPlaces(r, hits, d) == AllPlaces(r, hits, d - 1) + LevelPlaces(Level(r, hits, d - 1), d)
  {
    hide Level, LevelPlaces;
  }

  lemma OneMoreLevel(r: Run, before: State, st: State, frontier: seq<Row>, next: seq<Row>, d: nat)
    requires Extends(before, st, next, d) && d >= 1 && frontier == Level(r, before.included, d - 1)
    requires Follows([], Places(before.hops), AllPlaces(r, before.included, d - 1), Active(r, before))
    requires Follows(Places(before.hops), Places(st.hops), LevelPlaces(frontier, d), Active(r, st))
    requires !Active(r, before) ==> st == before
    ensures Follows([], Places(st.hops), AllPlaces(r, st.included, d), Active(r, st))
  {
    hide Extends, Level, Places, Follows, LevelPlaces, AllPlaces, Active;
    PlacesKept(r, before, st, next, d, d - 1);
    LevelAfter(r, before, st, next, d, d - 1);
    PlacesUnfold(r, st.included, d);
    assert frontier + [] == frontier;
    if Active(r, before) {
      FollowsOn([], Places(before.hops), Places(st.hops), AllPlaces(r, before.included, d - 1), LevelPlaces(frontier, d), Active(r, st));
    } else {
      FollowsLess([], Places(st.hops), AllPlaces(r, before.included, d - 1), LevelPlaces(frontier, d));
    }
  }

  /** A stopped run, or one with nothing left to search from, makes no more searches. */
  lemma {:induction false} PlacesBelow(r: Run, st: State, d: nat, m: nat)
    requires Follows([], Places(st.hops), AllPlaces(r, st.included, d), Active(r, st)) && d <= m
    requires Active(r, st) ==> forall e: nat :: d <= e ==> Level(r, st.included, e) == []
    ensures Follows([], Places(st.hops), AllPlaces(r, st.included, m), Active(r, st))
    decreases m
  {
    hide Level, Places, LevelPlaces, Active;
    if d < m {
      PlacesBelow(r, st, d, m - 1);
      NoPlaces(m);
      if !Active(r, st) {
        FollowsLess([], Places(st.hops), AllPlaces(r, st.included, m - 1), LevelPlaces(Level(r, st.included, m - 1), m));
      } else {
        assert AllPlaces(r, st.included, m - 1) + [] == AllPlaces(r, st.included, m - 1);
      }
    }
  }

  lemma SeedLevel(r: Run, hits: seq<Hit>)
    ensures Level(r, hits, 0) == r.seeds
  {
  }

  lemma NothingAtLevel(r: Run, hits: seq<Hit>, d: nat)
    requires d >= 1 && NoDeeper(hits, d - 1)
    ensures Level(r, hits, d) == []
  {
    NothingAt(hits, d - 1, d);
  }

  /** The caps are never left once reached. */
  lemma StillActive(r: Run, st: State, st': State, found: seq<Row>, d: nat)
    requires Extends(st, st', found, d) && Active(r, st')
    ensures Active(r, st)
  {
  }

  lemma NothingBelow(r: Run, st: State, d: nat, m: nat)
    requires d >= 1 && Exhausted(r, st, d) && NoDeeper(st.included, d) && Level(r, st.included, d) == []
    ensures Exhausted(r, st, m)
  {
    hide Searched;
    forall e: nat, row | e < m && row in Level(r, st.included, e) ensures Searched(st.hops, row, e) {
      if e > d {
        NothingAt(st.included, d, e);
      }
    }
  }

  // ----- back to a seed -----

  /** The child was included at depth `d` from the answer of a search that was made, by the record of its
      hop, for the parent on one of its anchors. */
  ghost predicate Linked(r: Run, st: State, parent: Row, child: Row, d: nat) {
    exists h :: h in st.included && h.row == child && h.parent == parent && h.depth == d
                && h.anchor in Anchors(parent) && MadeOn(st.hops, Probe(parent, h.anchor, d, h.call))
                && ReturnedBy(r, h.call, h.anchor, child)
  }

  ghost predicate Chain(r: Run, st: State, path: seq<Row>) {
    && path != [] && path[0] in r.seeds
    && forall i :: 1 <= i < |path| ==> Linked(r, st, path[i - 1], path[i], i)
  }

  lemma HitLinked(r: Run, st: State, h: Hit)
    requires GoodHits(r, st) && h in st.included
    ensures h.depth >= 1 && h.parent in Level(r, st.included, h.depth - 1)
    ensures Linked(r, st, h.parent, h.row, h.depth)
  {
    hide Anchors, ReturnedBy, Overlap, Threshold, Score, Level, MadeOn;
    assert GoodHit(r, st.included, st.hops, h);
  }

  lemma ChainSnoc(r: Run, st: State, path: seq<Row>, row: Row)
    requires Chain(r, st, path) && Linked(r, st, path[|path| - 1], row, |path|)
    ensures Chain(r, st, path + [row])
  {
    hide Linked;
    var longer := path + [row];
    forall i | 1 <= i < |longer| ensures Linked(r, st, longer[i - 1], longer[i], i) {
      if i < |path| {
        assert longer[i] == path[i] && longer[i - 1] == path[i - 1];
      }
    }
  }

  /** Every included row is reached from a seed by as many search hops as its depth, each on an anchor of
      the row before it. */
  lemma {:induction false} ParentChain(r: Run, st: State, h: Hit) returns (path: seq<Row>)
    requires Sound(r, st) && h in st.included
    ensures Chain(r, st, path) && |path| == h.depth + 1 && path[h.depth] == h.row
    decreases h.depth
  {
    hide GoodHops, GoodHits, KeysExact, GoodRejections, Counted, Linked, RowsAt;
    HitLinked(r, st, h);
    if h.depth == 1 {
      path := [h.parent];
      assert Chain(r, st, path);
    } else {
      var g := HitAt(st.included, h.parent, h.depth - 1);
      path := ParentChain(r, st, g);
    }
    ChainSnoc(r, st, path, h.row);
    path := path + [h.row];
  }

  lemma {:induction false} HitAt(hits: seq<Hit>, row: Row, e: nat) returns (h: Hit)
    requires row in RowsAt(hits, e)
    ensures h in hits && h.row == row && h.depth == e
  {
    var n := |hits| - 1;
    if hits[n].depth == e && hits[n].row == row {
      h := hits[n];
    } else {
      h := HitAt(hits[..n], row, e);
    }
  }

  // ----- counts -----

  lemma {:induction false} AnswersSize(r: Run, hops: seq<Hop>)
    requires forall n :: 0 <= n < |hops| ==> hops[n].candidateCount == |r.search(n, hops[n].anchor, Limit(r))|
    ensures |Answers(r, hops)| == TotalCandidates(hops)
  {
    hide Limit;
    if hops != [] {
      AnswersSize(r, hops[..|hops| - 1]);
    }
  }

  /** The hop counts add up: to what was included and suppressed when the candidate cap was not reached, and
      to at least that when it was. */
  lemma CandidatesConserved(r: Run, st: State)
    requires Sound(r, st)
    ensures TotalCandidates(st.hops) >= |st.included| + |st.suppressed|
    ensures |st.included| < r.maxCandidates ==> TotalCandidates(st.hops) == |st.included| + |st.suppressed|
    ensures |st.hops| == st.searchCount
  {
    hide KeysExact, GoodHits, GoodRejections, GoodProbe, Dealt, Answers, Limit;
    forall n | 0 <= n < |st.hops| ensures st.hops[n].candidateCount == |r.search(n, st.hops[n].anchor, Limit(r))| {
      assert GoodHop(r, st.included, st.hops, n);
    }
    AnswersSize(r, st.hops);
  }

  // ----- the result -----

  datatype Status = Disabled | NoTerms | NoSeeds | Found | NothingFound

  datatype Expansion = Expansion(
    status: Status, seeds: seq<Row>, hops: seq<Hop>, included: seq<Hit>, suppressed: seq<Rejection>,
    searchCount: nat, suppressedCount: nat)

  datatype Bounds = Bounds(maxSeeds: int, maxDepth: int, maxCandidates: int, maxSearches: int, graphAllowed: bool)

  function AtLeastZero(n: int): nat {
    if n < 0 then 0 else n
  }

  function Typed(rows: seq<Row>): seq<Row> {
    if rows == [] then []
    else Typed(rows[..|rows| - 1]) + if Strip(rows[|rows| - 1].rowType) != "" then [rows[|rows| - 1]] else []
  }

  function Truncated<T>(xs: seq<T>, n: nat): seq<T> {
    if |xs| <= n then xs else xs[..n]
  }

  function RunOf(query: set<string>, rows: seq<Row>, search: (nat, string, nat) -> seq<Row>, b: Bounds): Run {
    Run(query, Truncated(Typed(rows), AtLeastZero(b.maxSeeds)), search,
        AtLeastZero(b.maxDepth), AtLeastZero(b.maxCandidates), AtLeastZero(b.maxSearches))
  }

  /** Best score first, then the later date, then the greater subject. */
  predicate Before(a: Hit, b: Hit) {
    a.score > b.score
    || (a.score == b.score && a.row.happenedAt != b.row.happenedAt && StrLe(b.row.happenedAt, a.row.happenedAt))
    || (a.score == b.score && a.row.happenedAt == b.row.happenedAt && StrLe(b.row.subject, a.row.subject))
  }

  lemma BeforeIsOrder()
    ensures TotalPreorder(Before)
  {
    forall a, b ensures Before(a, b) || Before(b, a) {
      StrLeTotal(a.row.happenedAt, b.row.happenedAt);
      StrLeTotal(a.row.subject, b.row.subject);
    }
    forall a, b, c | Before(a, b) && Before(b, c) ensures Before(a, c) {
      BeforeTransitive(a, b, c);
    }
  }

  lemma BeforeTransitive(a: Hit, b: Hit, c: Hit)
    requires Before(a, b) && Before(b, c)
    ensures Before(a, c)
  {
    hide StrLe;
    if a.score == b.score == c.score {
      var x, y, z := a.row.happenedAt, b.row.happenedAt, c.row.happenedAt;
      if x != y && y != z {
        StrLeTransitive(z, y, x);
        StrLeTotal(x, y);
      } else if x == y == z {
        StrLeTransitive(c.row.subject, b.row.subject, a.row.subject);
      }
    }
  }

  /** The report lists the hits of the run, best first and tied ones as they were found, and the run's own
      counts. */
  ghost predicate Reports(e: Expansion, r: Run, st: State) {
    && e.seeds == r.seeds && e.hops == st.hops
    && e.searchCount == st.searchCount && e.suppressedCount == |st.suppressed|
    && e.suppressed == Truncated(st.suppressed, Limit(r))
    && e.included == SortBy(Before, st.included)
    && multiset(e.included) == multiset(st.included) && Sorted(Before, e.included)
    && (e.status == Found <==> st.included != [])
  }

  // ----- the report in terms of the call -----

  predicate HasType(row: Row) {
    Strip(row.rowType) != ""
  }

  lemma {:induction false} TypedExactly(rows: seq<Row>) returns (at: seq<nat>)
    ensures Picks(rows, HasType, Itself<Row>, Typed(rows), at)
  {
    hide Strip, Picks;
    if rows == [] {
      at := [];
      PicksNothing<Row, Row>(HasType, Itself<Row>);
    } else {
      var n := |rows| - 1;
      var front := TypedExactly(rows[..n]);
      PicksSnoc(rows[..n], rows[n], HasType, Itself<Row>, Typed(rows[..n]), front);
      assert rows[..n] + [rows[n]] == rows;
      assert Itself(rows[n]) == rows[n] && Typed(rows[..n]) + [] == Typed(rows[..n]);
      at := if HasType(rows[n]) then front + [n] else front;
    }
  }

  lemma TypedEmpty(rows: seq<Row>)
    ensures Typed(rows) == [] <==> forall row :: row in rows ==> Strip(row.rowType) == ""
  {
    var at := TypedExactly(rows);
    hide Strip, Typed;
    assert forall row :: HasType(row) <==> Strip(row.rowType) != "";
    hide HasType;
    if at == [] {
      forall row | row in rows ensures !HasType(row) {
        var i :| 0 <= i < |rows| && rows[i] == row;
      }
    } else {
      assert rows[at[0]] in rows && HasType(rows[at[0]]);
    }
  }

  /** The seeds are the rows with a type, in order, and of these the first `maxSeeds`. */
  ghost predicate SeedsAre(rows: seq<Row>, b: Bounds, seeds: seq<Row>) {
    exists typed, at ::
      && Picks(rows, HasType, Itself<Row>, typed, at) && seeds <= typed
      && (|seeds| <= b.maxSeeds || seeds == []) && (|seeds| < |typed| ==> b.maxSeeds <= |seeds|)
  }

  lemma SeedsExactly(rows: seq<Row>, b: Bounds)
    ensures SeedsAre(rows, b, Truncated(Typed(rows), AtLeastZero(b.maxSeeds)))
    ensures Truncated(Typed(rows), AtLeastZero(b.maxSeeds)) == [] <==>
            b.maxSeeds <= 0 || forall row :: row in rows ==> Strip(row.rowType) == ""
  {
    var at := TypedExactly(rows);
    TypedEmpty(rows);
    hide Picks, Strip, Typed;
    assert Picks(rows, HasType, Itself<Row>, Typed(rows), at);
  }

  /** The number of rows that each search asks for. */
  function Asked(b: Bounds): nat {
    if b.maxCandidates > 4 then 2 * b.maxCandidates else 8
  }

  /** The caps of the call are kept, and every hop counts what its search answered. */
  ghost predicate KeepsCaps(e: Expansion, search: (nat, string, nat) -> seq<Row>, b: Bounds) {
    && (|e.included| <= b.maxCandidates || e.included == [])
    && (e.searchCount <= b.maxSearches || e.searchCount == 0) && |e.hops| == e.searchCount
    && |e.suppressed| == (if e.suppressedCount <= Asked(b) then e.suppressedCount else Asked(b))
    && forall n :: 0 <= n < |e.hops| ==>
         1 <= e.hops[n].depth <= b.maxDepth && e.hops[n].candidateCount == |search(n, e.hops[n].anchor, Asked(b))|
  }

  /** An included row was answered to the hop it names, shares a term with the query, two behind a value anchor of
      a row that is no relation, and is scored by what it shares, its authority, its currency and its depth. */
  ghost predicate PlainHit(query: set<string>, hops: seq<Hop>, search: (nat, string, nat) -> seq<Row>, b: Bounds, h: Hit) {
    var shared := |query * h.row.terms|;
    && h.call < |hops| && hops[h.call].depth == h.depth && hops[h.call].anchor == h.anchor && hops[h.call].seedKey == Key(h.parent)
    && h.row in search(h.call, h.anchor, Asked(b))
    && shared >= 1
    && (Strip(h.parent.rowType) !in {"relation", "inferred_relation"} && h.anchor != Normalize(h.parent.subject) ==> shared >= 2)
    && h.score == shared as real + (if h.row.graphAuthority then 0.18 else 0.0) + (if h.row.isCurrent then 0.22 else 0.0)
                  - (h.depth - 1) as real * 0.2
  }

  /** A suppressed row that is no duplicate shares too little. */
  ghost predicate PlainRejection(query: set<string>, x: Rejection) {
    var shared := |query * x.row.terms|;
    && (x.reason == InsufficientRelevance ==> shared == 0)
    && (x.reason == NeedsStrongerRelevance ==>
          shared == 1 && Strip(x.parent.rowType) !in {"relation", "inferred_relation"} && x.anchor != Normalize(x.parent.subject))
  }

  /** Below both caps every anchor of every row above the depth limit has been searched. */
  ghost predicate StopsAtCap(e: Expansion, b: Bounds) {
    e.searchCount < b.maxSearches && |e.included| < b.maxCandidates ==>
      && (forall row, a :: row in e.seeds && a in Anchors(row) && 1 <= b.maxDepth ==> HasHop(e.hops, 1, Key(row), a))
      && (forall h, a :: h in e.included && a in Anchors(h.row) && h.depth < b.maxDepth ==>
                           HasHop(e.hops, h.depth + 1, Key(h.row), a))
  }

  /** Best score first; of equal scores the later date, and of equal dates the greater subject. */
  ghost predicate BestFirst(hits: seq<Hit>) {
    forall i, j :: 0 <= i < j < |hits| ==>
      var a, b := hits[i], hits[j];
      && a.score >= b.score
      && (a.score == b.score ==> StrLe(b.row.happenedAt, a.row.happenedAt))
      && (a.score == b.score && a.row.happenedAt == b.row.happenedAt ==> StrLe(b.row.subject, a.row.subject))
  }

  lemma SortedBestFirst(hits: seq<Hit>)
    requires Sorted(Before, hits)
    ensures BestFirst(hits)
  {
    forall i, j | 0 <= i < j < |hits|
      ensures hits[i].score >= hits[j].score
      ensures hits[i].score == hits[j].score ==> StrLe(hits[j].row.happenedAt, hits[i].row.happenedAt)
      ensures hits[i].score == hits[j].score && hits[i].row.happenedAt == hits[j].row.happenedAt ==>
                StrLe(hits[j].row.subject, hits[i].row.subject)
    {
      assert Before(hits[i], hits[j]);
      StrLeTotal(hits[i].row.happenedAt, hits[i].row.happenedAt);
    }
    hide Before, Sorted, StrLe;
  }

  ghost predicate PlainReport(e: Expansion, query: set<string>, rows: seq<Row>, search: (nat, string, nat) -> seq<Row>, b: Bounds) {
    && SeedsAre(rows, b, e.seeds) && KeepsCaps(e, search, b) && StopsAtCap(e, b) && BestFirst(e.included)
    && (forall h :: h in e.included ==> PlainHit(query, e.hops, search, b, h))
    && (forall x :: x in e.suppressed ==> PlainRejection(query, x))
  }

  lemma ReportCaps(e: Expansion, st: State, query: set<string>, rows: seq<Row>, search: (nat, string, nat) -> seq<Row>, b: Bounds)
    requires var r := RunOf(query, rows, search, b); Reports(e, r, st) && Sound(r, st)
    ensures KeepsCaps(e, search, b)
  {
    hide Kept, Dealt, Answers, Typed, SortBy, Sorted;
    var r := RunOf(query, rows, search, b);
    assert |multiset(e.included)| == |multiset(st.included)|;
    forall n | 0 <= n < |e.hops|
      ensures 1 <= e.hops[n].depth <= b.maxDepth && e.hops[n].candidateCount == |search(n, e.hops[n].anchor, Asked(b))|
    {
      HopCaps(r, st, n);
    }
  }

  lemma HopCaps(r: Run, st: State, n: nat)
    requires Kept(r, st) && n < |st.hops|
    ensures 1 <= st.hops[n].depth <= r.maxDepth && st.hops[n].candidateCount == |r.search(n, st.hops[n].anchor, Limit(r))|
  {
    hide KeysExact, GoodHits, GoodRejections, Level, Anchors;
    assert GoodHop(r, st.included, st.hops, n);
  }

  lemma ReportHits(e: Expansion, st: State, query: set<string>, rows: seq<Row>, search: (nat, string, nat) -> seq<Row>, b: Bounds)
    requires var r := RunOf(query, rows, search, b); Reports(e, r, st) && Sound(r, st)
    ensures forall h :: h in e.included ==> h in st.included && h.depth >= 1 && PlainHit(query, e.hops, search, b, h)
    ensures forall h :: h in st.included ==> h in e.included
    ensures forall x :: x in e.suppressed ==> PlainRejection(query, x)
  {
    hide KeysExact, GoodHops, Counted, Level, Typed, Strip, Normalize, SortBy, Sorted, Anchors, Key;
    var r := RunOf(query, rows, search, b);
    forall h | h in e.included ensures h in st.included && h.depth >= 1 && PlainHit(query, e.hops, search, b, h) {
      assert h in multiset(e.included);
      assert GoodHit(r, st.included, st.hops, h);
    }
    forall h | h in st.included ensures h in e.included {
      assert h in multiset(st.included);
    }
    forall x | x in e.suppressed ensures PlainRejection(query, x) {
      assert GoodRejection(r, st.included, st.hops, st.seen, x);
    }
  }

  lemma ReportStops(e: Expansion, st: State, query: set<string>, rows: seq<Row>, search: (nat, string, nat) -> seq<Row>, b: Bounds)
    requires var r := RunOf(query, rows, search, b);
             Reports(e, r, st) && Sound(r, st) && (Active(r, st) ==> Exhausted(r, st, r.maxDepth))
    ensures StopsAtCap(e, b)
  {
    ReportHits(e, st, query, rows, search, b);
    hide Sound, HasHop, Anchors, Key, PlainHit, PlainRejection, SortBy, Sorted, Typed;
    var r := RunOf(query, rows, search, b);
    assert |multiset(e.included)| == |multiset(st.included)|;
    if e.searchCount < b.maxSearches && |e.included| < b.maxCandidates {
      forall row, a | row in e.seeds && a in Anchors(row) && 1 <= b.maxDepth ensures HasHop(e.hops, 1, Key(row), a) {
        assert row in Level(r, st.included, 0) && Searched(st.hops, row, 0);
      }
      forall h, a | h in e.included && a in Anchors(h.row) && h.depth < b.maxDepth
        ensures HasHop(e.hops, h.depth + 1, Key(h.row), a)
      {
        HitInLevel(st.included, h);
        assert h.row in Level(r, st.included, h.depth) && Searched(st.hops, h.row, h.depth);
      }
    }
  }

  lemma {:induction false} HitInLevel(hits: seq<Hit>, h: Hit)
    requires h in hits
    ensures h.row in RowsAt(hits, h.depth)
  {
    var n := |hits| - 1;
    if hits[n] != h {
      assert h in hits[..n];
      HitInLevel(hits[..n], h);
    }
  }

  /** Either nothing was searched, for one of the three reasons, or the report is that of a sound run that
      stopped at a cap or after searching every anchor above the depth limit. */
  method BuildAssociativeExpansion(query: set<string>, seedRows: seq<Row>, search: (nat, string, nat) -> seq<Row>, b: Bounds)
    returns (e: Expansion, ghost st: State)
    ensures e.status == Disabled <==> !b.graphAllowed
    ensures e.status == NoTerms <==> b.graphAllowed && query == {}
    ensures e.status == NoSeeds <==>
            b.graphAllowed && query != {} && (b.maxSeeds <= 0 || forall row :: row in seedRows ==> Strip(row.rowType) == "")
    ensures e.status in {Disabled, NoTerms, NoSeeds} ==>
              e == Expansion(e.status, [], [], [], [], 0, 0)
    ensures e.status !in {Disabled, NoTerms, NoSeeds} ==>
              var r := RunOf(query, seedRows, search, b);
              && Reports(e, r, st) && Sound(r, st)
              && (Active(r, st) ==> Exhausted(r, st, r.maxDepth))
              && Follows([], Places(e.hops), AllPlaces(r, st.included, r.maxDepth), Active(r, st))
              && PlainReport(e, query, seedRows, search, b)
  {
    hide Places, AllPlaces, Follows, BestFirst, Sound, Exhausted, Active, Typed, SeedsAre, KeepsCaps, StopsAtCap, PlainHit, PlainRejection, Strip;
    SeedsExactly(seedRows, b);
    var r := RunOf(query, seedRows, search, b);
    st := Start(r);
    if !b.graphAllowed {
      return Expansion(Disabled, [], [], [], [], 0, 0), st;
    }
    if query == {} {
      return Expansion(NoTerms, [], [], [], [], 0, 0), st;
    }
    if r.seeds == [] {
      return Expansion(NoSeeds, [], [], [], [], 0, 0), st;
    }
    var final := Expand(r);
    st := final;
    var sorted := SortBy(Before, final.included);
    BeforeIsOrder();
    SortSorts(Before, final.included);
    SortPermutes(Before, final.included);
    e := Expansion(if sorted != [] then Found else NothingFound, r.seeds, final.hops, sorted,
                   Truncated(final.suppressed, Limit(r)), final.searchCount, |final.suppressed|);
    SortedBestFirst(e.included);
    ReportCaps(e, st, query, seedRows, search, b);
    ReportHits(e, st, query, seedRows, search, b);
    ReportStops(e, st, query, seedRows, search, b);
  }
}
