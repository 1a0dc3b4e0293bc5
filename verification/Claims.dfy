/** Claims bound to evidence and the conflicts between them: `_find_chunk_for_span`,
    `_normalize_claim_candidates` and `build_offline_document_pilot` of brainstack/document_pipeline.py. */
module Claims {
  import opened ChunkRanges
  import opened DocumentPipeline
  import opened DocumentSections
  import opened EvidenceSpans
  import opened Results
  import opened Sequences
  import opened Text

  /** A claim candidate; one given as a mapping has its fields stripped, a record is taken as it is. */
  datatype Candidate = Candidate(
    fromMapping: bool, claimId: string, claimType: string,
    subject: string, relation: string, objectValue: string, snippet: string)

  datatype Evidence = Evidence(evidenceId: string, chunkId: string, startOffset: nat, endOffset: nat, excerpt: string)

  datatype Claim = Claim(
    claimId: string, claimType: string, subject: string, relation: string, objectValue: string,
    evidenceId: string, chunkId: string)

  datatype Conflict = Conflict(conflictId: string, subject: string, relation: string, claimIds: seq<string>)

  datatype PilotError =
    | EmptyContent
    | MissingTriple(index: nat)
    | MissingSnippet(index: nat)
    | NotLocated(error: LocateError)
    | NotInChunk(start: nat, end: nat)

  // ----- candidates -----

  function Coerced(raw: Candidate): Candidate {
    if raw.fromMapping then
      raw.(claimId := Strip(raw.claimId),
           claimType := if Strip(raw.claimType) == "" then "relation" else Strip(raw.claimType),
           subject := Strip(raw.subject), relation := Strip(raw.relation),
           objectValue := Strip(raw.objectValue), snippet := Strip(raw.snippet))
    else raw
  }

  /** A mapping's texts are stripped and its type defaults to "relation"; a record is taken as it is. */
  ghost predicate TakenFrom(raw: Candidate, c: Candidate) {
    && c.fromMapping == raw.fromMapping
    && c.subject == (if raw.fromMapping then Strip(raw.subject) else raw.subject)
    && c.relation == (if raw.fromMapping then Strip(raw.relation) else raw.relation)
    && c.objectValue == (if raw.fromMapping then Strip(raw.objectValue) else raw.objectValue)
    && c.snippet == (if raw.fromMapping then Strip(raw.snippet) else raw.snippet)
    && c.claimId == (if raw.fromMapping then Strip(raw.claimId) else raw.claimId)
    && c.claimType == (if !raw.fromMapping then raw.claimType else if Blank(raw.claimType) then "relation" else Strip(raw.claimType))
  }

  lemma CoercedTaken(raw: Candidate)
    ensures TakenFrom(raw, Coerced(raw))
  {
    StripBlank(raw.claimType);
    hide Strip, Blank;
  }

  function CandidateError(c: Candidate, index: nat): Option<PilotError> {
    if c.subject == "" || c.relation == "" || c.objectValue == "" then Some(MissingTriple(index))
    else if c.snippet == "" then Some(MissingSnippet(index))
    else None
  }

  function AllCoerced(raws: seq<Candidate>): (cs: seq<Candidate>)
    ensures |cs| == |raws| && forall i :: 0 <= i < |raws| ==> cs[i] == Coerced(raws[i])
  {
    seq(|raws|, i requires 0 <= i < |raws| => Coerced(raws[i]))
  }

  ghost predicate IsComplete(c: Candidate) {
    c.subject != "" && c.relation != "" && c.objectValue != "" && c.snippet != ""
  }

  ghost predicate AllComplete(cs: seq<Candidate>) {
    forall i :: 0 <= i < |cs| ==> IsComplete(cs[i])
  }

  /** The first incomplete candidate decides the error: its number, and whether it has its three parts. */
  ghost predicate FirstError(cs: seq<Candidate>, e: PilotError) {
    exists i :: 0 <= i < |cs| && !IsComplete(cs[i]) && AllComplete(cs[..i])
                && var c := cs[i];
                   e == if c.subject != "" && c.relation != "" && c.objectValue != "" then MissingSnippet(i + 1) else MissingTriple(i + 1)
  }

  method NormalizeCandidates(raws: seq<Candidate>) returns (r: Result<seq<Candidate>, PilotError>)
    ensures r.Success? <==> AllComplete(AllCoerced(raws))
    ensures r.Success? ==> r.value == AllCoerced(raws)
    ensures r.Success? ==> |r.value| == |raws| && forall i :: 0 <= i < |raws| ==> TakenFrom(raws[i], r.value[i])
    ensures r.Failure? ==> FirstError(AllCoerced(raws), r.error) && !r.error.EmptyContent?
  {
    hide Coerced, TakenFrom;
    forall i | 0 <= i < |raws| ensures TakenFrom(raws[i], AllCoerced(raws)[i]) {
      CoercedTaken(raws[i]);
    }
    var normalized := [];
    ghost var all := AllCoerced(raws);
    for i := 0 to |raws|
      invariant normalized == all[..i]
      invariant AllComplete(all[..i])
    {
      var c := Coerced(raws[i]);
      var e := CandidateError(c, i + 1);
      if e.Some? {
        return Failure(e.value);
      }
      normalized := normalized + [c];
    }
    assert all[..|raws|] == all;
    return Success(normalized);
  }

  // ----- the chunk that holds a span -----

  predicate Holds(c: Chunk, start: nat, end: nat) {
    c.startOffset <= start && end <= c.endOffset
  }

  method FindChunkForSpan(chunks: seq<Chunk>, start: nat, end: nat) returns (r: Option<Chunk>)
    ensures r.Some? ==> r.value in chunks && Holds(r.value, start, end)
    ensures r.None? ==> forall c :: c in chunks ==> !Holds(c, start, end)
  {
    for i := 0 to |chunks|
      invariant forall j :: 0 <= j < i ==> !Holds(chunks[j], start, end)
    {
      if Holds(chunks[i], start, end) {
        return Some(chunks[i]);
      }
    }
    return None;
  }

  /** Ordered chunks cannot both hold a non-empty span. */
  lemma HeldByOne(chunks: seq<Chunk>, lo: nat, hi: nat, c: Chunk, d: Chunk, start: nat, end: nat)
    requires Ordered(Spans(chunks), lo, hi) && c in chunks && d in chunks && start < end
    requires Holds(c, start, end) && Holds(d, start, end)
    ensures c == d
  {
    OrderedBounds(Spans(chunks), lo, hi);
    var i :| 0 <= i < |chunks| && chunks[i] == c;
    var j :| 0 <= j < |chunks| && chunks[j] == d;
    assert Spans(chunks)[i] == Range(c.startOffset, c.endOffset);
    assert Spans(chunks)[j] == Range(d.startOffset, d.endOffset);
  }

  // ----- binding claims to evidence -----

  datatype Naming = Naming(sections: Names, chunks: Names, evidence: Names, claims: Names, conflicts: Names)

  /** The candidate's evidence can be located inside one chunk. */
  ghost predicate Groundable(content: string, chunks: seq<Chunk>, snippet: string) {
    && LocateSpan(content, snippet).Success?
    && exists c :: c in chunks && Holds(c, LocateSpan(content, snippet).value.0, LocateSpan(content, snippet).value.1)
  }

  /** The evidence is the located span with its text, and the claim repeats the candidate and points at
      the evidence; both name a chunk that holds the whole span. */
  ghost predicate Grounded(content: string, chunks: seq<Chunk>, names: Naming, c: Candidate, i: nat, e: Evidence, claim: Claim) {
    && LocateSpan(content, c.snippet) == Success((e.startOffset, e.endOffset))
    && e.startOffset < e.endOffset <= |content|
    && e.excerpt == content[e.startOffset..e.endOffset]
    && e.evidenceId == names.evidence(i + 1)
    && (exists k :: k in chunks && k.chunkId == e.chunkId && Holds(k, e.startOffset, e.endOffset))
    && claim == Claim(if c.claimId != "" then c.claimId else names.claims(i + 1), c.claimType,
                      c.subject, c.relation, c.objectValue, e.evidenceId, e.chunkId)
  }

  /** What the loop reports for a candidate that cannot be bound. */
  ghost predicate BindError(content: string, chunks: seq<Chunk>, snippet: string, e: PilotError) {
    match LocateSpan(content, snippet)
    case Failure(why) => e == NotLocated(why)
    case Success((start, end)) => e == NotInChunk(start, end) && forall c :: c in chunks ==> !Holds(c, start, end)
  }

  method BindClaim(content: string, chunks: seq<Chunk>, names: Naming, c: Candidate, i: nat)
    returns (r: Result<(Evidence, Claim), PilotError>)
    ensures r.Success? <==> Groundable(content, chunks, c.snippet)
    ensures r.Success? ==> Grounded(content, chunks, names, c, i, r.value.0, r.value.1)
    ensures r.Failure? ==> BindError(content, chunks, c.snippet, r.error)
  {
    hide LocateSpan, Normalize;
    var located := LocateEvidenceSpan(content, c.snippet);
    if located.Failure? {
      return Failure(NotLocated(located.error));
    }
    var (start, end) := located.value;
    LocateFaithful(content, c.snippet);
    var chunk := FindChunkForSpan(chunks, start, end);
    if chunk.None? {
      return Failure(NotInChunk(start, end));
    }
    var e := Evidence(names.evidence(i + 1), chunk.value.chunkId, start, end, content[start..end]);
    var claim := Claim(if c.claimId != "" then c.claimId else names.claims(i + 1), c.claimType,
                       c.subject, c.relation, c.objectValue, e.evidenceId, e.chunkId);
    return Success((e, claim));
  }

  ghost predicate AllGroundable(content: string, chunks: seq<Chunk>, cs: seq<Candidate>) {
    forall i :: 0 <= i < |cs| ==> Groundable(content, chunks, cs[i].snippet)
  }

  ghost predicate AllGrounded(content: string, chunks: seq<Chunk>, names: Naming, cs: seq<Candidate>,
                              es: seq<Evidence>, claims: seq<Claim>) {
    && |es| == |claims| == |cs|
    && forall i :: 0 <= i < |cs| ==> Grounded(content, chunks, names, cs[i], i, es[i], claims[i])
  }

  /** The first candidate that cannot be bound decides the error. */
  ghost predicate FirstBindError(content: string, chunks: seq<Chunk>, cs: seq<Candidate>, e: PilotError) {
    exists i :: 0 <= i < |cs| && BindError(content, chunks, cs[i].snippet, e) && AllGroundable(content, chunks, cs[..i])
  }

  method BindClaims(content: string, chunks: seq<Chunk>, names: Naming, cs: seq<Candidate>)
    returns (r: Result<(seq<Evidence>, seq<Claim>), PilotError>)
    ensures r.Success? <==> AllGroundable(content, chunks, cs)
    ensures r.Success? ==> AllGrounded(content, chunks, names, cs, r.value.0, r.value.1)
    ensures r.Failure? ==> FirstBindError(content, chunks, cs, r.error) && !r.error.EmptyContent?
  {
    hide Groundable, Grounded;
    var evidence, claims := [], [];
    for i := 0 to |cs|
      invariant |evidence| == |claims| == i
      invariant forall j :: 0 <= j < i ==> Groundable(content, chunks, cs[j].snippet)
      invariant forall j :: 0 <= j < i ==> Grounded(content, chunks, names, cs[j], j, evidence[j], claims[j])
    {
      var b := BindClaim(content, chunks, names, cs[i], i);
      if b.Failure? {
        assert AllGroundable(content, chunks, cs[..i]);
        return Failure(b.error);
      }
      evidence, claims := evidence + [b.value.0], claims + [b.value.1];
    }
    return Success((evidence, claims));
  }

  ghost predicate Distinct(names: Names) {
    forall m, n :: names(m) == names(n) ==> m == n
  }

  /** `<document id>:<kind>:<n>`, the source's identifiers, are distinct for distinct numbers. */
  function DocumentNames(documentId: string, kind: string): Names {
    (n: nat) => documentId + ":" + kind + ":" + NatToString(n)
  }

  lemma DocumentNamesDistinct(documentId: string, kind: string)
    ensures Distinct(DocumentNames(documentId, kind))
  {
    var names := DocumentNames(documentId, kind);
    forall m: nat, n: nat | names(m) == names(n) ensures m == n {
      var p := documentId + ":" + kind;
      assert names(m) == p + ":" + IntToString(m) && names(n) == p + ":" + IntToString(n);
      ColonIdInjective(p, m, p, n);
    }
  }

  /** A grounded claim's evidence lies in the chunk it names and in no other, and its excerpt is that
      chunk's text at the relative offset. */
  lemma ClaimInOneChunk(content: string, chunks: seq<Chunk>, names: Naming, c: Candidate, i: nat, e: Evidence,
                        claim: Claim, lo: nat, hi: nat, maxChars: nat, k: Chunk)
    requires Grounded(content, chunks, names, c, i, e, claim) && Distinct(names.chunks)
    requires Ordered(Spans(chunks), lo, hi) && AllFaithful(content, names.chunks, chunks, 0, maxChars)
    requires k in chunks
    ensures Holds(k, e.startOffset, e.endOffset) <==> k.chunkId == claim.chunkId
    ensures k.chunkId == claim.chunkId ==>
              e.excerpt == content[e.startOffset..e.endOffset]
              == k.text[e.startOffset - k.startOffset..e.endOffset - k.startOffset]
  {
    hide LocateSpan, Normalize, Ordered;
    var d :| d in chunks && d.chunkId == e.chunkId && Holds(d, e.startOffset, e.endOffset);
    var a :| 0 <= a < |chunks| && chunks[a] == d;
    var b :| 0 <= b < |chunks| && chunks[b] == k;
    assert Faithful(content, names.chunks, chunks[a], 0 + a + 1, maxChars);
    assert Faithful(content, names.chunks, chunks[b], 0 + b + 1, maxChars);
    hide AllFaithful;
    if k.chunkId == d.chunkId {
      assert a == b;
      SliceOfSlice(content, k.startOffset, k.endOffset, e.startOffset - k.startOffset, e.endOffset - k.startOffset);
    } else if Holds(k, e.startOffset, e.endOffset) {
      HeldByOne(chunks, lo, hi, d, k, e.startOffset, e.endOffset);
    }
  }

  // ----- conflicts -----

  datatype Group = Group(subject: string, relation: string, claims: seq<Claim>)

  predicate SamePair(c: Claim, subject: string, relation: string) {
    c.subject == subject && c.relation == relation
  }

  function OfPair(claims: seq<Claim>, subject: string, relation: string): (r: seq<Claim>) {
    if claims == [] then []
    else
      var n := |claims| - 1;
      OfPair(claims[..n], subject, relation) + if SamePair(claims[n], subject, relation) then [claims[n]] else []
  }

  /** One group per subject and predicate, holding all claims of the pair in order. */
  ghost predicate Grouping(groups: seq<Group>, claims: seq<Claim>) {
    && (forall g :: g in groups ==> g.claims == OfPair(claims, g.subject, g.relation) != [])
    && (forall c :: c in claims ==> exists g :: g in groups && SamePair(c, g.subject, g.relation))
    && (forall i, j :: 0 <= i < j < |groups| ==>
          groups[i].subject != groups[j].subject || groups[i].relation != groups[j].relation)
  }

  ghost function PairOf(claims: seq<Claim>, pair: (string, string)): Claim -> bool {
    c => SamePair(c, pair.0, pair.1)
  }

  /** The claims of a pair are all of them, in order. */
  lemma {:induction false} OfPairExactly(claims: seq<Claim>, pair: (string, string)) returns (at: seq<nat>)
    ensures Picks(claims, PairOf(claims, pair), Itself<Claim>, OfPair(claims, pair.0, pair.1), at)
  {
    hide Picks;
    if claims == [] {
      at := [];
      PicksNothing<Claim, Claim>(PairOf(claims, pair), Itself<Claim>);
    } else {
      var n := |claims| - 1;
      var front := OfPairExactly(claims[..n], pair);
      PicksSnoc(claims[..n], claims[n], PairOf(claims, pair), Itself<Claim>, OfPair(claims[..n], pair.0, pair.1), front);
      assert claims[..n] + [claims[n]] == claims && Itself(claims[n]) == claims[n];
      assert OfPair(claims[..n], pair.0, pair.1) + [] == OfPair(claims[..n], pair.0, pair.1);
      at := if SamePair(claims[n], pair.0, pair.1) then front + [n] else front;
    }
  }

  /** The first claim of the pair. */
  ghost predicate FirstAt(claims: seq<Claim>, pair: (string, string), k: int) {
    && 0 <= k < |claims| && SamePair(claims[k], pair.0, pair.1)
    && forall j :: 0 <= j < k ==> !SamePair(claims[j], pair.0, pair.1)
  }

  ghost predicate HasClaim(claims: seq<Claim>, pair: (string, string)) {
    exists k :: FirstAt(claims, pair, k)
  }

  /** The pairs have claims, and are listed in the order of the first ones. */
  ghost predicate InFirstOrder(pairs: seq<(string, string)>, claims: seq<Claim>) {
    && (forall i :: 0 <= i < |pairs| ==> HasClaim(claims, pairs[i]))
    && (forall i, j, a, b :: 0 <= i < j < |pairs| && FirstAt(claims, pairs[i], a) && FirstAt(claims, pairs[j], b) ==> a < b)
  }

  lemma FirstAtStays(claims: seq<Claim>, c: Claim, pair: (string, string))
    requires HasClaim(claims, pair)
    ensures forall k :: FirstAt(claims + [c], pair, k) <==> FirstAt(claims, pair, k)
  {
    hide SamePair;
    var all := claims + [c];
    var first :| FirstAt(claims, pair, first);
    assert forall j :: 0 <= j < |claims| ==> all[j] == claims[j];
    assert FirstAt(all, pair, first);
  }

  lemma FirstOrderStays(pairs: seq<(string, string)>, claims: seq<Claim>, c: Claim)
    requires InFirstOrder(pairs, claims)
    ensures InFirstOrder(pairs, claims + [c])
  {
    hide FirstAt;
    var all := claims + [c];
    forall i | 0 <= i < |pairs|
      ensures forall k :: FirstAt(all, pairs[i], k) <==> FirstAt(claims, pairs[i], k)
      ensures HasClaim(all, pairs[i])
    {
      FirstAtStays(claims, c, pairs[i]);
      var k :| FirstAt(claims, pairs[i], k);
      assert FirstAt(all, pairs[i], k);
    }
    forall i, j, a, b | 0 <= i < j < |pairs| && FirstAt(all, pairs[i], a) && FirstAt(all, pairs[j], b) ensures a < b {
      assert FirstAt(claims, pairs[i], a) && FirstAt(claims, pairs[j], b);
    }
  }

  lemma FirstOrderGrows(pairs: seq<(string, string)>, claims: seq<Claim>, c: Claim)
    requires InFirstOrder(pairs, claims) && forall d :: d in claims ==> !SamePair(d, c.subject, c.relation)
    ensures InFirstOrder(pairs + [(c.subject, c.relation)], claims + [c])
  {
    var all, pair := claims + [c], (c.subject, c.relation);
    assert FirstAt(all, pair, |claims|) && forall k :: FirstAt(all, pair, k) ==> k == |claims| by {
      assert all[|claims|] == c && forall j :: 0 <= j < |claims| ==> all[j] == claims[j] && claims[j] in claims;
    }
    hide FirstAt, SamePair;
    FirstOrderStays(pairs, claims, c);
    forall i, k | 0 <= i < |pairs| && FirstAt(all, pairs[i], k) ensures k < |claims| {
      FirstAtStays(claims, c, pairs[i]);
      FirstAtIn(claims, pairs[i], k);
    }
    var more := pairs + [pair];
    forall i | 0 <= i < |more| ensures HasClaim(all, more[i]) {
      if i < |pairs| {
        var k :| FirstAt(all, pairs[i], k);
        assert FirstAt(all, more[i], k);
      } else {
        assert FirstAt(all, more[i], |claims|);
      }
    }
    forall i, j, a, b | 0 <= i < j < |more| && FirstAt(all, more[i], a) && FirstAt(all, more[j], b) ensures a < b {
      assert FirstAt(all, pairs[i], a);
      assert j < |pairs| ==> FirstAt(all, pairs[j], b);
    }
  }

  lemma FirstAtIn(claims: seq<Claim>, pair: (string, string), k: int)
    requires FirstAt(claims, pair, k)
    ensures 0 <= k < |claims|
  {
  }

  ghost function GroupPairs(groups: seq<Group>): (ps: seq<(string, string)>)
    ensures |ps| == |groups|
  {
    seq(|groups|, i requires 0 <= i < |groups| => (groups[i].subject, groups[i].relation))
  }

  ghost function ConflictPairs(cs: seq<Conflict>): (ps: seq<(string, string)>)
    ensures |ps| == |cs|
  {
    seq(|cs|, i requires 0 <= i < |cs| => (cs[i].subject, cs[i].relation))
  }

  method AddToGroups(groups: seq<Group>, c: Claim, ghost claims: seq<Claim>) returns (r: seq<Group>)
    requires Grouping(groups, claims) && InFirstOrder(GroupPairs(groups), claims)
    ensures Grouping(r, claims + [c]) && InFirstOrder(GroupPairs(r), claims + [c])
  {
    OfPairSnoc(claims, c);
    hide InFirstOrder, Grouping, OfPair, GroupPairs;
    for i := 0 to |groups|
      invariant forall j :: 0 <= j < i ==> !SamePair(c, groups[j].subject, groups[j].relation)
    {
      if SamePair(c, groups[i].subject, groups[i].relation) {
        r := groups[i := groups[i].(claims := groups[i].claims + [c])];
        GroupExtended(groups, c, claims, i, r);
        SamePairs(groups, c, claims, i, r);
        return;
      }
    }
    r := groups + [Group(c.subject, c.relation, [c])];
    NewGroup(groups, c, claims, r);
    NewPair(groups, c, claims, r);
  }

  lemma OfPairSnoc(claims: seq<Claim>, c: Claim)
    ensures forall s, p :: OfPair(claims + [c], s, p) == OfPair(claims, s, p) + if SamePair(c, s, p) then [c] else []
  {
    assert (claims + [c])[..|claims|] == claims;
  }

  lemma SamePairs(groups: seq<Group>, c: Claim, claims: seq<Claim>, i: nat, r: seq<Group>)
    requires InFirstOrder(GroupPairs(groups), claims) && i < |groups|
    requires r == groups[i := groups[i].(claims := groups[i].claims + [c])]
    ensures InFirstOrder(GroupPairs(r), claims + [c])
  {
    hide InFirstOrder;
    FirstOrderStays(GroupPairs(groups), claims, c);
    assert GroupPairs(r) == GroupPairs(groups);
  }

  lemma NewPair(groups: seq<Group>, c: Claim, claims: seq<Claim>, r: seq<Group>)
    requires Grouping(groups, claims) && InFirstOrder(GroupPairs(groups), claims)
    requires forall j :: 0 <= j < |groups| ==> !SamePair(c, groups[j].subject, groups[j].relation)
    requires r == groups + [Group(c.subject, c.relation, [c])]
    ensures InFirstOrder(GroupPairs(r), claims + [c])
  {
    NoClaimYet(groups, c, claims);
    hide InFirstOrder, Grouping, SamePair;
    FirstOrderGrows(GroupPairs(groups), claims, c);
    assert GroupPairs(r) == GroupPairs(groups) + [(c.subject, c.relation)];
  }

  lemma NoClaimYet(groups: seq<Group>, c: Claim, claims: seq<Claim>)
    requires Grouping(groups, claims)
    requires forall j :: 0 <= j < |groups| ==> !SamePair(c, groups[j].subject, groups[j].relation)
    ensures forall d :: d in claims ==> !SamePair(d, c.subject, c.relation)
  {
    forall d | d in claims ensures !SamePair(d, c.subject, c.relation) {
      var g :| g in groups && SamePair(d, g.subject, g.relation);
      var j :| 0 <= j < |groups| && groups[j] == g;
    }
  }

  lemma GroupExtended(groups: seq<Group>, c: Claim, claims: seq<Claim>, i: nat, r: seq<Group>)
    requires Grouping(groups, claims) && i < |groups| && SamePair(c, groups[i].subject, groups[i].relation)
    requires forall s, p :: OfPair(claims + [c], s, p) == OfPair(claims, s, p) + if SamePair(c, s, p) then [c] else []
    requires r == groups[i := groups[i].(claims := groups[i].claims + [c])]
    ensures Grouping(r, claims + [c])
  {
    hide OfPair;
    forall g | g in r ensures g.claims == OfPair(claims + [c], g.subject, g.relation) != [] {
      var j :| 0 <= j < |r| && r[j] == g;
      assert groups[j] in groups;
    }
    forall d | d in claims + [c] ensures exists g :: g in r && SamePair(d, g.subject, g.relation) {
      if d == c {
        assert r[i] in r;
      } else {
        var g :| g in groups && SamePair(d, g.subject, g.relation);
        var j :| 0 <= j < |groups| && groups[j] == g;
        assert r[j] in r && r[j].subject == g.subject && r[j].relation == g.relation;
      }
    }
  }

  lemma UnseenPair(groups: seq<Group>, c: Claim, claims: seq<Claim>)
    requires Grouping(groups, claims)
    requires forall j :: 0 <= j < |groups| ==> !SamePair(c, groups[j].subject, groups[j].relation)
    ensures OfPair(claims, c.subject, c.relation) == []
  {
    NoClaimYet(groups, c, claims);
    OfPairEmpty(claims, c.subject, c.relation);
  }

  lemma {:induction false} OfPairEmpty(claims: seq<Claim>, subject: string, relation: string)
    requires forall d :: d in claims ==> !SamePair(d, subject, relation)
    ensures OfPair(claims, subject, relation) == []
  {
    if claims != [] {
      OfPairEmpty(claims[..|claims| - 1], subject, relation);
    }
  }

  lemma NewGroup(groups: seq<Group>, c: Claim, claims: seq<Claim>, r: seq<Group>)
    requires Grouping(groups, claims)
    requires forall j :: 0 <= j < |groups| ==> !SamePair(c, groups[j].subject, groups[j].relation)
    requires forall s, p :: OfPair(claims + [c], s, p) == OfPair(claims, s, p) + if SamePair(c, s, p) then [c] else []
    requires r == groups + [Group(c.subject, c.relation, [c])]
    ensures Grouping(r, claims + [c])
  {
    UnseenPair(groups, c, claims);
    hide OfPair;
    var last := r[|groups|];
    assert last in r && SamePair(c, last.subject, last.relation);
    forall d | d in claims ensures exists g :: g in r && SamePair(d, g.subject, g.relation) {
      var g :| g in groups && SamePair(d, g.subject, g.relation);
      assert g in r;
    }
  }

  lemma {:induction false} OfPairContents(claims: seq<Claim>, subject: string, relation: string, c: Claim)
    ensures c in OfPair(claims, subject, relation) <==> c in claims && SamePair(c, subject, relation)
  {
    if claims != [] {
      var n := |claims| - 1;
      OfPairContents(claims[..n], subject, relation, c);
      assert c in claims <==> c in claims[..n] || c == claims[n];
    }
  }

  predicate Disagree(claims: seq<Claim>) {
    exists i, j :: 0 <= i < j < |claims| && claims[i].objectValue != claims[j].objectValue
  }

  /** `len({claim.object_value ...}) <= 1` fails exactly when two claims disagree. */
  lemma ObjectValues(claims: seq<Claim>)
    ensures |set c | c in claims :: c.objectValue| > 1 <==> Disagree(claims)
  {
    var vs := set c | c in claims :: c.objectValue;
    if Disagree(claims) {
      var i, j :| 0 <= i < j < |claims| && claims[i].objectValue != claims[j].objectValue;
      assert claims[i] in claims && claims[j] in claims;
      assert {claims[i].objectValue, claims[j].objectValue} <= vs;
      SubsetSize({claims[i].objectValue, claims[j].objectValue}, vs);
    } else if claims == [] {
      assert vs == {};
    } else {
      assert claims[0] in claims;
      forall v | v in vs ensures v == claims[0].objectValue {
        var c :| c in claims && c.objectValue == v;
        var i :| 0 <= i < |claims| && claims[i] == c;
      }
      assert vs == {claims[0].objectValue};
    }
  }

  lemma {:induction false} SubsetSize(a: set<string>, b: set<string>)
    requires a <= b
    ensures |a| <= |b|
    decreases b
  {
    if x :| x in a {
      SubsetSize(a - {x}, b - {x});
    }
  }

  function Ids(claims: seq<Claim>): seq<string> {
    seq(|claims|, i requires 0 <= i < |claims| => claims[i].claimId)
  }

  /** Conflicts are exactly the pairs whose claims disagree, each once, with all claim ids of the pair in
      order and numbered by place. */
  ghost predicate ExactConflicts(cs: seq<Conflict>, claims: seq<Claim>, names: Names) {
    && (forall k :: 0 <= k < |cs| ==>
          && cs[k].conflictId == names(k + 1)
          && cs[k].claimIds == Ids(OfPair(claims, cs[k].subject, cs[k].relation))
          && Disagree(OfPair(claims, cs[k].subject, cs[k].relation)))
    && (forall c :: c in claims && Disagree(OfPair(claims, c.subject, c.relation)) ==>
          exists k :: 0 <= k < |cs| && SamePair(c, cs[k].subject, cs[k].relation))
    && (forall i, j :: 0 <= i < j < |cs| ==> cs[i].subject != cs[j].subject || cs[i].relation != cs[j].relation)
  }

  method GroupClaims(claims: seq<Claim>) returns (grouped: seq<Group>)
    ensures Grouping(grouped, claims) && InFirstOrder(GroupPairs(grouped), claims)
  {
    hide InFirstOrder;
    grouped := [];
    NothingGrouped();
    for i := 0 to |claims|
      invariant Grouping(grouped, claims[..i]) && InFirstOrder(GroupPairs(grouped), claims[..i])
    {
      grouped := AddToGroups(grouped, claims[i], claims[..i]);
      assert claims[..i] + [claims[i]] == claims[..i + 1];
    }
    assert claims[..|claims|] == claims;
  }

  lemma NothingGrouped()
    ensures InFirstOrder(GroupPairs([]), [])
  {
  }

  lemma ConflictsInOrder(claims: seq<Claim>, names: Names, groups: seq<Group>, cs: seq<Conflict>, from: seq<nat>)
    requires InFirstOrder(GroupPairs(groups), claims) && Compared(groups, |groups|, names, cs, from)
    ensures InFirstOrder(ConflictPairs(cs), claims)
  {
    hide FirstAt, Disagree, Ids;
    var pairs, groupPairs := ConflictPairs(cs), GroupPairs(groups);
    assert forall k :: 0 <= k < |cs| ==> pairs[k] == groupPairs[from[k]];
    forall k | 0 <= k < |pairs| ensures HasClaim(claims, pairs[k]) {
      var at :| FirstAt(claims, groupPairs[from[k]], at);
      assert FirstAt(claims, pairs[k], at);
    }
    forall i, j, a, b | 0 <= i < j < |pairs| && FirstAt(claims, pairs[i], a) && FirstAt(claims, pairs[j], b) ensures a < b {
      assert FirstAt(claims, groupPairs[from[i]], a) && FirstAt(claims, groupPairs[from[j]], b);
    }
  }

  ghost predicate FromGroup(c: Conflict, g: Group, id: string) {
    c == Conflict(id, g.subject, g.relation, Ids(g.claims)) && Disagree(g.claims)
  }

  /** The first `n` groups are dealt with: `from` says which group each conflict is from. */
  ghost predicate Compared(groups: seq<Group>, n: nat, names: Names, cs: seq<Conflict>, from: seq<nat>) {
    && n <= |groups| && |from| == |cs|
    && (forall k :: 0 <= k < |cs| ==> from[k] < n && FromGroup(cs[k], groups[from[k]], names(k + 1)))
    && (forall j, k :: 0 <= j < k < |from| ==> from[j] < from[k])
    && (forall g :: 0 <= g < n && Disagree(groups[g].claims) ==> g in from)
  }

  lemma ComparedStep(groups: seq<Group>, n: nat, names: Names, cs: seq<Conflict>, from: seq<nat>)
    requires n < |groups| && Compared(groups, n, names, cs, from)
    ensures var g := groups[n];
            if Disagree(g.claims) then
              Compared(groups, n + 1, names, cs + [Conflict(names(|cs| + 1), g.subject, g.relation, Ids(g.claims))], from + [n])
            else Compared(groups, n + 1, names, cs, from)
  {
    hide Ids, Disagree;
  }

  method FindConflicts(claims: seq<Claim>, names: Names) returns (conflicts: seq<Conflict>)
    ensures ExactConflicts(conflicts, claims, names) && InFirstOrder(ConflictPairs(conflicts), claims)
  {
    hide InFirstOrder;
    var grouped := GroupClaims(claims);
    conflicts := [];
    ghost var from: seq<nat> := [];
    assert Compared(grouped, 0, names, conflicts, from);
    hide OfPair, Ids, Disagree, Grouping, ExactConflicts, Compared;
    for i := 0 to |grouped|
      invariant Compared(grouped, i, names, conflicts, from)
    {
      var g := grouped[i];
      ObjectValues(g.claims);
      ComparedStep(grouped, i, names, conflicts, from);
      var objectValues := set c | c in g.claims :: c.objectValue;
      if |objectValues| > 1 {
        conflicts := conflicts + [Conflict(names(|conflicts| + 1), g.subject, g.relation, Ids(g.claims))];
        from := from + [i];
      }
    }
    ConflictsFromGroups(claims, names, grouped, conflicts, from);
    ConflictsInOrder(claims, names, grouped, conflicts, from);
  }

  lemma ConflictsFromGroups(claims: seq<Claim>, names: Names, groups: seq<Group>, cs: seq<Conflict>, from: seq<nat>)
    requires Grouping(groups, claims) && Compared(groups, |groups|, names, cs, from)
    ensures ExactConflicts(cs, claims, names)
  {
    hide OfPair, Ids, Disagree;
    forall k | 0 <= k < |cs| ensures cs[k].conflictId == names(k + 1)
                                     && cs[k].claimIds == Ids(OfPair(claims, cs[k].subject, cs[k].relation))
                                     && Disagree(OfPair(claims, cs[k].subject, cs[k].relation))
    {
      assert groups[from[k]] in groups;
    }
    forall c | c in claims && Disagree(OfPair(claims, c.subject, c.relation))
      ensures exists k :: 0 <= k < |cs| && SamePair(c, cs[k].subject, cs[k].relation)
    {
      var g :| g in groups && SamePair(c, g.subject, g.relation);
      var i :| 0 <= i < |groups| && groups[i] == g;
      var k :| 0 <= k < |from| && from[k] == i;
      assert FromGroup(cs[k], groups[from[k]], names(k + 1));
    }
    forall i, j | 0 <= i < j < |cs| ensures cs[i].subject != cs[j].subject || cs[i].relation != cs[j].relation {
      assert from[i] < from[j] && FromGroup(cs[i], groups[from[i]], names(i + 1)) && FromGroup(cs[j], groups[from[j]], names(j + 1));
    }
  }

  // ----- the pilot -----

  datatype Pilot = Pilot(
    sections: seq<Section>, chunks: seq<Chunk>, evidence: seq<Evidence>, claims: seq<Claim>, conflicts: seq<Conflict>)

  /** The whole build. Its result is a pilot exactly when the content is not blank, every candidate is
      complete and every snippet is found inside one chunk; the source's two errors "could not derive
      any sections" and "any chunks" never arise. */
  method BuildOfflineDocumentPilot(rule: HeadingRule, names: Naming, content: string, raws: seq<Candidate>, maxChunkChars: nat)
    returns (r: Result<Pilot, PilotError>)
    requires maxChunkChars >= 1
    ensures r == Failure(EmptyContent) <==> Blank(content)
    ensures r.Success? <==>
            && !Blank(content)
            && AllComplete(AllCoerced(raws))
            && AllGroundable(content, DocumentChunks(rule, names.sections, names.chunks, content, maxChunkChars),
                             AllCoerced(raws))
    ensures !Blank(content) && r.Failure? ==>
              if AllComplete(AllCoerced(raws)) then
                FirstBindError(content, DocumentChunks(rule, names.sections, names.chunks, content, maxChunkChars),
                               AllCoerced(raws), r.error)
              else FirstError(AllCoerced(raws), r.error)
    ensures r.Success? ==>
              var p := r.value;
              && Within(content, DocumentSpans(rule, content))
              && p.sections == Numbered(names.sections, content, DocumentSpans(rule, content))
              && p.chunks == DocumentChunks(rule, names.sections, names.chunks, content, maxChunkChars)
              && AllGrounded(content, p.chunks, names, AllCoerced(raws), p.evidence, p.claims)
              && ExactConflicts(p.conflicts, p.claims, names.conflicts) && InFirstOrder(ConflictPairs(p.conflicts), p.claims)
  {
    hide AllGroundable, AllGrounded, ExactConflicts, InFirstOrder, AllChunks, DocumentSpans, AllCoerced, AllComplete, FirstError, FirstBindError, Numbered;
    StripBlank(content);
    if Strip(content) == "" {
      return Failure(EmptyContent);
    }
    var sections := SplitSections(rule, names.sections, content);
    SectionsTile(rule, content);
    var chunks := BuildChunks(names.chunks, sections, maxChunkChars);
    ChunksTileDocument(rule, names.sections, names.chunks, content, maxChunkChars);
    assert sections != [] && chunks != [];
    var normalized := NormalizeCandidates(raws);
    if normalized.Failure? {
      return Failure(normalized.error);
    }
    var bound := BindClaims(content, chunks, names, normalized.value);
    if bound.Failure? {
      return Failure(bound.error);
    }
    var conflicts := FindConflicts(bound.value.1, names.conflicts);
    return Success(Pilot(sections, chunks, bound.value.0, bound.value.1, conflicts));
  }
}
