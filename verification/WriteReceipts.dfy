/** Receipt-backed acknowledgement: proposals, coverage, the acknowledgement plan and the commitment guard
    of brainstack/memory_write_receipts.py. */
module WriteReceipts {
  import opened Results
  import opened Sequences
  import opened Text

  datatype ProposalRef = ProposalRef(
    proposalId: string, targetSlot: string, stableKey: string, sourceSpanId: string, normalizedValue: string, required: bool)

  /** A proposal as a mapping; an absent entry reads as the empty text. */
  datatype ProposalMapping = ProposalMapping(
    turnId: string, proposalId: string, targetSlot: string, stableKey: string, sourceSpanId: string,
    normalizedValue: string, required: bool)

  /** The digest, over the normalised parts, behind generated identifiers. */
  type Hash = seq<string> -> HexDigest

  function StableId(hash: Hash, prefix: string, parts: seq<string>): string {
    prefix + "_" + hash(parts)
  }

  function FromMapping(hash: Hash, m: ProposalMapping): ProposalRef {
    var stableKey := if Normalize(m.stableKey) != "" then Normalize(m.stableKey) else Normalize(m.targetSlot);
    ProposalRef(
      if Normalize(m.proposalId) != "" then Normalize(m.proposalId)
      else StableId(hash, "cap", [m.turnId, stableKey, m.sourceSpanId, m.normalizedValue]),
      Normalize(m.targetSlot), stableKey, Normalize(m.sourceSpanId), Normalize(m.normalizedValue), m.required)
  }

  function ToDict(p: ProposalRef): ProposalMapping {
    ProposalMapping("", p.proposalId, p.targetSlot, p.stableKey, p.sourceSpanId, p.normalizedValue, p.required)
  }

  predicate IsNormal(s: string) {
    Normalize(s) == s
  }

  predicate Survives(p: ProposalRef) {
    && IsNormal(p.proposalId) && IsNormal(p.targetSlot) && IsNormal(p.stableKey)
    && IsNormal(p.sourceSpanId) && IsNormal(p.normalizedValue)
    && p.proposalId != "" && (p.stableKey != "" || p.targetSlot == "")
  }

  /** A reference survives the trip through its dictionary exactly when its texts are normalised, it has an
      id, and it has a stable key unless it has no slot either. */
  lemma RoundTrip(hash: Hash, p: ProposalRef)
    ensures FromMapping(hash, ToDict(p)) == p <==> Survives(p)
  {
    hide Normalize, Words, Join, StableId, IsSpace;
    NormalizeIdempotent(p.proposalId);
    NormalizeIdempotent(p.stableKey);
    NormalizeIdempotent(p.targetSlot);
    NormalizeOfEmpty();
    GeneratedIdIsWord(hash, "cap", [ToDict(p).turnId, FromMapping(hash, ToDict(p)).stableKey, p.sourceSpanId, p.normalizedValue]);
  }

  lemma GeneratedIdIsWord(hash: Hash, prefix: string, parts: seq<string>)
    requires forall k :: 0 <= k < |prefix| ==> '!' <= prefix[k] <= '~'
    ensures IsWord(StableId(hash, prefix, parts)) && IsNormal(StableId(hash, prefix, parts))
    ensures StableId(hash, prefix, parts) != ""
  {
    hide Normalize, IsSpace;
    DigestIsWord(prefix + "_", hash(parts));
  }

  // ----- plans and receipts -----

  datatype CapturePlan = CapturePlan(proposals: seq<ProposalRef>, status: string)

  /** `CapturePlan.from_proposals` on references. */
  function FromProposals(refs: seq<ProposalRef>, status: string): CapturePlan {
    CapturePlan(refs, if refs != [] || status != "has_proposals" then status else "no_capture")
  }

  function RequiredIds(proposals: seq<ProposalRef>): seq<string> {
    if proposals == [] then []
    else
      var p := proposals[|proposals| - 1];
      RequiredIds(proposals[..|proposals| - 1]) + if p.required then [p.proposalId] else []
  }

  datatype DurableRef = DurableRef(refId: string, slotId: string, stableKey: string, truthEligible: bool, ackAllowed: bool)

  datatype Scope = Scope(principal: string, workspace: string, session: string)

  datatype Receipt = Receipt(
    rightSchema: bool, status: string, durableRefs: seq<DurableRef>, scope: Scope, proposalIds: seq<string>)

  predicate GoodRef(d: DurableRef) {
    Normalize(d.refId) != "" && Normalize(d.slotId) != "" && Normalize(d.stableKey) != "" && d.truthEligible && d.ackAllowed
  }

  predicate IsCommitted(r: Receipt) {
    r.rightSchema && r.status == "committed" && exists i :: 0 <= i < |r.durableRefs| && GoodRef(r.durableRefs[i])
  }

  /** A scope key that is not asked for matches anything. */
  predicate InScope(r: Receipt, asked: Scope) {
    && (asked.principal == "" || r.scope.principal == asked.principal)
    && (asked.workspace == "" || r.scope.workspace == asked.workspace)
    && (asked.session == "" || r.scope.session == asked.session)
  }

  ghost predicate Lists(r: Receipt, id: string) {
    exists i :: 0 <= i < |r.proposalIds| && Normalize(r.proposalIds[i]) == id
  }

  // ----- coverage -----

  datatype CoverageStatus = NotApplicable | NoneCovered | Partial | Complete

  datatype FailureReason = ScopeMismatch | MissingReceipt

  datatype FailedProposal = FailedProposal(proposalId: string, reason: FailureReason)

  datatype Coverage = Coverage(
    status: CoverageStatus, expected: seq<string>, covered: seq<string>, missing: seq<string>,
    failed: seq<FailedProposal>, receiptCount: nat)

  /** The receipt is a committed one in scope that lists the id. */
  ghost predicate Covers(r: Receipt, asked: Scope, id: string) {
    IsCommitted(r) && InScope(r, asked) && Lists(r, id)
  }

  /** The receipt is of the right schema and has the status "committed"; it holds a reference with an id, a slot
      and a stable key that is eligible and may be acknowledged; every scope key asked for is its own; it lists the id. */
  ghost predicate CommitsTo(r: Receipt, asked: Scope, id: string) {
    && r.rightSchema && r.status == "committed"
    && (exists ref :: ref in r.durableRefs && !Blank(ref.refId) && !Blank(ref.slotId) && !Blank(ref.stableKey)
                      && ref.truthEligible && ref.ackAllowed)
    && (asked.principal != "" ==> r.scope.principal == asked.principal)
    && (asked.workspace != "" ==> r.scope.workspace == asked.workspace)
    && (asked.session != "" ==> r.scope.session == asked.session)
    && exists listed :: listed in r.proposalIds && Normalize(listed) == id
  }

  lemma CoversExactly(r: Receipt, asked: Scope, id: string)
    ensures Covers(r, asked, id) <==> CommitsTo(r, asked, id)
  {
    GoodRefsExactly(r.durableRefs);
    hide GoodRef, Blank, Normalize;
    if Lists(r, id) {
      var i :| 0 <= i < |r.proposalIds| && Normalize(r.proposalIds[i]) == id;
      assert r.proposalIds[i] in r.proposalIds;
    }
    if listed :| listed in r.proposalIds && Normalize(listed) == id {
      var i :| 0 <= i < |r.proposalIds| && r.proposalIds[i] == listed;
    }
  }

  lemma GoodRefsExactly(refs: seq<DurableRef>)
    ensures (exists i :: 0 <= i < |refs| && GoodRef(refs[i])) <==>
            exists ref :: ref in refs && !Blank(ref.refId) && !Blank(ref.slotId) && !Blank(ref.stableKey) && ref.truthEligible && ref.ackAllowed
  {
    forall ref ensures GoodRef(ref) <==>
                       !Blank(ref.refId) && !Blank(ref.slotId) && !Blank(ref.stableKey) && ref.truthEligible && ref.ackAllowed
    {
      NormalBlank(ref.refId);
      NormalBlank(ref.slotId);
      NormalBlank(ref.stableKey);
    }
    hide GoodRef, Blank;
    if i :| 0 <= i < |refs| && GoodRef(refs[i]) {
      assert refs[i] in refs;
    }
  }

  lemma NormalBlank(s: string)
    ensures Normalize(s) == "" <==> Blank(s)
  {
    WordsOfBlank(s);
    JoinNonEmpty(Words(s));
  }

  predicate IsRequired(p: ProposalRef) {
    p.required
  }

  function IdOf(p: ProposalRef): string {
    p.proposalId
  }

  /** The required ids: those of the required proposals, in order. */
  lemma {:induction false} RequiredExactly(proposals: seq<ProposalRef>) returns (at: seq<nat>)
    ensures Picks(proposals, IsRequired, IdOf, RequiredIds(proposals), at)
  {
    hide Picks;
    if proposals == [] {
      at := [];
      PicksNothing(IsRequired, IdOf);
    } else {
      var n := |proposals| - 1;
      var front := RequiredExactly(proposals[..n]);
      PicksSnoc(proposals[..n], proposals[n], IsRequired, IdOf, RequiredIds(proposals[..n]), front);
      assert proposals[..n] + [proposals[n]] == proposals && RequiredIds(proposals[..n]) + [] == RequiredIds(proposals[..n]);
      at := if proposals[n].required then front + [n] else front;
    }
  }

  ghost predicate IsCovered(id: string, receipts: seq<Receipt>, asked: Scope) {
    exists i :: 0 <= i < |receipts| && Covers(receipts[i], asked, id)
  }

  ghost function CoveredSet(expected: seq<string>, receipts: seq<Receipt>, asked: Scope): set<string> {
    set id | id in expected && IsCovered(id, receipts, asked)
  }

  function StatusOf(expected: seq<string>, covered: set<string>): CoverageStatus {
    if expected == [] then NotApplicable
    else if covered == {} then NoneCovered
    else if exists i :: 0 <= i < |expected| && expected[i] !in covered then Partial
    else Complete
  }

  function Without(ids: seq<string>, covered: seq<string>): seq<string> {
    if ids == [] then []
    else
      var id := ids[|ids| - 1];
      Without(ids[..|ids| - 1], covered) + if id in covered then [] else [id]
  }

  /** The receipt is a committed one out of scope that lists the id. */
  ghost predicate Misses(r: Receipt, asked: Scope, id: string) {
    IsCommitted(r) && !InScope(r, asked) && Lists(r, id)
  }

  ghost predicate IsOutOfScope(id: string, receipts: seq<Receipt>, asked: Scope) {
    exists i :: 0 <= i < |receipts| && Misses(receipts[i], asked, id)
  }

  ghost predicate MismatchesReported(failed: seq<FailedProposal>, expected: seq<string>, receipts: seq<Receipt>, asked: Scope) {
    forall f :: f in failed <==>
                f.reason == ScopeMismatch && f.proposalId in expected && IsOutOfScope(f.proposalId, receipts, asked)
  }

  ghost predicate Collected(covered: seq<string>, expected: seq<string>, receipts: seq<Receipt>, asked: Scope) {
    NoRepeats(covered) && forall id :: id in covered <==> id in CoveredSet(expected, receipts, asked)
  }

  /** The inner loop over the ids of one committed receipt. */
  method ReadReceipt(r: Receipt, expected: seq<string>, mismatch: bool, covered0: seq<string>, failed0: seq<FailedProposal>)
    returns (covered: seq<string>, failed: seq<FailedProposal>)
    requires NoRepeats(covered0)
    ensures NoRepeats(covered)
    ensures forall id :: id in covered <==> id in covered0 || (!mismatch && id in expected && Lists(r, id))
    ensures forall f :: f in failed <==>
              f in failed0 || (mismatch && f.reason == ScopeMismatch && f.proposalId in expected && Lists(r, f.proposalId))
  {
    hide Normalize;
    covered, failed := covered0, failed0;
    for i := 0 to |r.proposalIds|
      invariant NoRepeats(covered)
      invariant forall id :: id in covered <==>
                  id in covered0 || (!mismatch && id in expected && exists j :: 0 <= j < i && Normalize(r.proposalIds[j]) == id)
      invariant forall f :: f in failed <==>
                  f in failed0 || (mismatch && f.reason == ScopeMismatch && f.proposalId in expected
                                   && exists j :: 0 <= j < i && Normalize(r.proposalIds[j]) == f.proposalId)
    {
      var id := Normalize(r.proposalIds[i]);
      if id in expected {
        if mismatch {
          failed := failed + [FailedProposal(id, ScopeMismatch)];
        } else if id !in covered {
          covered := covered + [id];
        }
      }
    }
  }

  /** The loop over the receipts. */
  method ReadReceipts(expected: seq<string>, receipts: seq<Receipt>, asked: Scope)
    returns (covered: seq<string>, failed: seq<FailedProposal>, count: nat)
    ensures Collected(covered, expected, receipts, asked)
    ensures MismatchesReported(failed, expected, receipts, asked)
    ensures count == CountCommitted(receipts)
  {
    covered, failed, count := [], [], 0;
    for i := 0 to |receipts|
      invariant Collected(covered, expected, receipts[..i], asked)
      invariant MismatchesReported(failed, expected, receipts[..i], asked)
      invariant count == CountCommitted(receipts[..i])
    {
      var r := receipts[i];
      ghost var before := receipts[..i];
      assert receipts[..i + 1] == before + [r];
      OneMoreReceipt(before, r, asked);
      CommittedSnoc(before, r);
      hide IsCovered, IsOutOfScope, CountCommitted, Lists, IsCommitted, InScope;
      if IsCommitted(r) {
        count := count + 1;
        covered, failed := ReadReceipt(r, expected, !InScope(r, asked), covered, failed);
      }
    }
    assert receipts[..|receipts|] == receipts;
  }

  lemma OneMoreReceipt(receipts: seq<Receipt>, r: Receipt, asked: Scope)
    ensures forall id :: IsCovered(id, receipts + [r], asked) <==> IsCovered(id, receipts, asked) || Covers(r, asked, id)
    ensures forall id :: IsOutOfScope(id, receipts + [r], asked) <==> IsOutOfScope(id, receipts, asked) || Misses(r, asked, id)
  {
    hide Covers, Misses;
    var all := receipts + [r];
    assert all[|receipts|] == r && forall i :: 0 <= i < |receipts| ==> all[i] == receipts[i];
    forall id ensures IsCovered(id, all, asked) <==> IsCovered(id, receipts, asked) || Covers(r, asked, id) {
      assert forall i :: 0 <= i < |receipts| && Covers(receipts[i], asked, id) ==> Covers(all[i], asked, id);
    }
    forall id ensures IsOutOfScope(id, all, asked) <==> IsOutOfScope(id, receipts, asked) || Misses(r, asked, id) {
      assert forall i :: 0 <= i < |receipts| && Misses(receipts[i], asked, id) ==> Misses(all[i], asked, id);
    }
  }

  function CountCommitted(receipts: seq<Receipt>): nat {
    if receipts == [] then 0
    else CountCommitted(receipts[..|receipts| - 1]) + if IsCommitted(receipts[|receipts| - 1]) then 1 else 0
  }

  lemma CommittedSnoc(receipts: seq<Receipt>, r: Receipt)
    ensures CountCommitted(receipts + [r]) == CountCommitted(receipts) + if IsCommitted(r) then 1 else 0
  {
    assert (receipts + [r])[..|receipts|] == receipts;
  }

  /** The loop that gives a reason for every missing id that has none yet. */
  method ReportMissing(missing: seq<string>, mismatches: seq<FailedProposal>) returns (failed: seq<FailedProposal>)
    requires forall f :: f in mismatches ==> f.reason == ScopeMismatch
    ensures forall f :: f in failed <==>
              f in mismatches || (f.reason == MissingReceipt && f.proposalId in missing
                                  && FailedProposal(f.proposalId, ScopeMismatch) !in mismatches)
  {
    failed := mismatches;
    for i := 0 to |missing|
      invariant forall f :: f in failed <==>
                  f in mismatches || (f.reason == MissingReceipt && f.proposalId in missing[..i]
                                      && FailedProposal(f.proposalId, ScopeMismatch) !in mismatches)
    {
      var id := missing[i];
      assert missing[..i + 1] == missing[..i] + [id];
      if !exists f :: f in failed && f.proposalId == id {
        failed := failed + [FailedProposal(id, MissingReceipt)];
      }
    }
    assert missing[..|missing|] == missing;
  }

  /** Coverage is exact: the covered ids are the required ids that some committed receipt in scope lists,
      without repeats; the rest is missing, in order. A scope mismatch is reported for exactly the required
      ids that some committed receipt out of scope lists, a missing receipt for exactly the other missing ids. */
  method ComputeReceiptCoverage(plan: CapturePlan, receipts: seq<Receipt>, asked: Scope) returns (c: Coverage)
    ensures c.expected == RequiredIds(plan.proposals)
    ensures Collected(c.covered, c.expected, receipts, asked)
    ensures c.missing == Without(c.expected, c.covered)
    ensures c.status == StatusOf(c.expected, CoveredSet(c.expected, receipts, asked))
    ensures c.receiptCount == CountCommitted(receipts)
    ensures forall f :: f in c.failed <==>
              match f.reason
              case ScopeMismatch => f.proposalId in c.expected && IsOutOfScope(f.proposalId, receipts, asked)
              case MissingReceipt => f.proposalId in c.missing && !IsOutOfScope(f.proposalId, receipts, asked)
    ensures forall id :: id in c.covered <==> id in c.expected && exists i :: 0 <= i < |receipts| && CommitsTo(receipts[i], asked, id)
  {
    hide CommitsTo, Covers;
    forall id, i | 0 <= i < |receipts| ensures Covers(receipts[i], asked, id) <==> CommitsTo(receipts[i], asked, id) {
      CoversExactly(receipts[i], asked, id);
    }
    var expected := RequiredIds(plan.proposals);
    var covered, mismatches, count := ReadReceipts(expected, receipts, asked);
    hide CoveredSet, IsOutOfScope, CountCommitted, RequiredIds;
    var missing := Without(expected, covered);
    var failed := ReportMissing(missing, mismatches);
    WithoutIsMissing(expected, covered);
    CoveredOrNot(expected, covered, receipts, asked);
    var status :=
      if expected == [] then NotApplicable
      else if covered == [] then NoneCovered
      else if missing != [] then Partial
      else Complete;
    c := Coverage(status, expected, covered, missing, failed, count);
    hide Without, Collected;
  }

  lemma {:induction false} WithoutIsMissing(ids: seq<string>, covered: seq<string>)
    ensures forall id :: id in Without(ids, covered) <==> id in ids && id !in covered
    ensures Without(ids, covered) != [] <==> exists i :: 0 <= i < |ids| && ids[i] !in covered
  {
    if ids != [] {
      var n := |ids| - 1;
      WithoutIsMissing(ids[..n], covered);
      assert forall id :: id in ids <==> id in ids[..n] || id == ids[n];
      if i :| 0 <= i < n && ids[..n][i] !in covered {
        assert ids[i] !in covered;
      }
    }
  }

  ghost function NotIn(covered: seq<string>): string -> bool {
    id => id !in covered
  }

  /** The missing ids: those not covered, in order. */
  lemma {:induction false} MissingExactly(ids: seq<string>, covered: seq<string>) returns (at: seq<nat>)
    ensures Picks(ids, NotIn(covered), Itself<string>, Without(ids, covered), at)
  {
    hide Picks;
    if ids == [] {
      at := [];
      PicksNothing(NotIn(covered), Itself<string>);
    } else {
      var n := |ids| - 1;
      var front := MissingExactly(ids[..n], covered);
      PicksSnoc(ids[..n], ids[n], NotIn(covered), Itself<string>, Without(ids[..n], covered), front);
      assert ids[..n] + [ids[n]] == ids && Itself(ids[n]) == ids[n] && Without(ids[..n], covered) + [] == Without(ids[..n], covered);
      at := if ids[n] in covered then front else front + [n];
    }
  }

  lemma CoveredOrNot(expected: seq<string>, covered: seq<string>, receipts: seq<Receipt>, asked: Scope)
    requires Collected(covered, expected, receipts, asked)
    ensures covered == [] <==> CoveredSet(expected, receipts, asked) == {}
  {
    if covered != [] {
      assert covered[0] in covered;
    }
  }

  // ----- order and monotonicity -----

  /** Only which receipts there are matters, not their order or number. */
  lemma ReceiptOrderDoesNotMatter(expected: seq<string>, a: seq<Receipt>, b: seq<Receipt>, asked: Scope)
    requires forall r :: r in a <==> r in b
    ensures CoveredSet(expected, a, asked) == CoveredSet(expected, b, asked)
  {
    MoreReceiptsCoverMore(expected, a, b, asked);
    MoreReceiptsCoverMore(expected, b, a, asked);
  }

  lemma MoreReceiptsCoverMore(expected: seq<string>, a: seq<Receipt>, b: seq<Receipt>, asked: Scope)
    requires forall r :: r in a ==> r in b
    ensures CoveredSet(expected, a, asked) <= CoveredSet(expected, b, asked)
  {
    hide Covers;
    forall id | IsCovered(id, a, asked) ensures IsCovered(id, b, asked) {
      var i :| 0 <= i < |a| && Covers(a[i], asked, id);
      assert a[i] in b;
      var j :| 0 <= j < |b| && b[j] == a[i];
      assert Covers(b[j], asked, id);
    }
  }

  function Rank(s: CoverageStatus): nat {
    match s
    case NotApplicable => 0
    case NoneCovered => 1
    case Partial => 2
    case Complete => 3
  }

  /** More receipts never lower the status. */
  lemma MoreReceiptsNeverLower(expected: seq<string>, a: seq<Receipt>, b: seq<Receipt>, asked: Scope)
    requires forall r :: r in a ==> r in b
    ensures Rank(StatusOf(expected, CoveredSet(expected, a, asked))) <= Rank(StatusOf(expected, CoveredSet(expected, b, asked)))
  {
    MoreReceiptsCoverMore(expected, a, b, asked);
    hide CoveredSet;
    var x, y := CoveredSet(expected, a, asked), CoveredSet(expected, b, asked);
    if y == {} {
      assert x == {};
    }
  }

  // ----- acknowledgement -----

  datatype AckMode = FullAck | PartialAck | NoAck

  datatype AckPlan = AckPlan(mode: AckMode, coveredSlots: seq<string>, missingSlots: seq<string>, mustNotClaimFullCommit: bool)

  /** The slot of the last proposal with that id. */
  function SlotOf(proposals: seq<ProposalRef>, id: string): Option<string> {
    if proposals == [] then None
    else if proposals[|proposals| - 1].proposalId == id then Some(proposals[|proposals| - 1].targetSlot)
    else SlotOf(proposals[..|proposals| - 1], id)
  }

  function SlotsOf(proposals: seq<ProposalRef>, ids: seq<string>): seq<string> {
    if ids == [] then []
    else
      var slot := SlotOf(proposals, ids[|ids| - 1]);
      SlotsOf(proposals, ids[..|ids| - 1]) + if slot.Some? then [slot.value] else []
  }

  function BuildAckPlan(plan: CapturePlan, c: Coverage): AckPlan {
    var mode := if c.status == Complete then FullAck else if c.status == Partial then PartialAck else NoAck;
    AckPlan(mode, SlotsOf(plan.proposals, c.covered), SlotsOf(plan.proposals, c.missing), mode != FullAck)
  }

  /** The slots name, id by id and in order, proposals of the plan that were covered and that were missed. */
  lemma AckSlotsNameTheProposals(plan: CapturePlan, c: Coverage)
    requires forall id :: id in c.covered || id in c.missing ==> id in RequiredIds(plan.proposals)
    ensures var ack := BuildAckPlan(plan, c);
            && SlotsFollow(plan.proposals, c.covered, ack.coveredSlots)
            && SlotsFollow(plan.proposals, c.missing, ack.missingSlots)
  {
    hide SlotsFollow;
    SlotsOfFollow(plan.proposals, c.covered);
    SlotsOfFollow(plan.proposals, c.missing);
  }

  /** The last proposal with that id has that slot. */
  ghost predicate HasSlot(proposals: seq<ProposalRef>, id: string, slot: string) {
    exists i :: 0 <= i < |proposals| && proposals[i].proposalId == id && proposals[i].targetSlot == slot
                && forall j :: i < j < |proposals| ==> proposals[j].proposalId != id
  }

  ghost predicate SlotsFollow(proposals: seq<ProposalRef>, ids: seq<string>, slots: seq<string>) {
    |slots| == |ids| && forall i :: 0 <= i < |ids| ==> HasSlot(proposals, ids[i], slots[i])
  }

  lemma {:induction false} SlotsOfFollow(proposals: seq<ProposalRef>, ids: seq<string>)
    requires forall i :: 0 <= i < |ids| ==> ids[i] in RequiredIds(proposals)
    ensures SlotsFollow(proposals, ids, SlotsOf(proposals, ids))
  {
    hide HasSlot, RequiredIds, SlotOf;
    if ids != [] {
      SlotsOfFollow(proposals, ids[..|ids| - 1]);
      RequiredHasSlot(proposals, ids[|ids| - 1]);
    }
  }

  lemma {:induction false} RequiredHasSlot(proposals: seq<ProposalRef>, id: string)
    requires id in RequiredIds(proposals)
    ensures SlotOf(proposals, id).Some? && HasSlot(proposals, id, SlotOf(proposals, id).value)
  {
    var n := |proposals| - 1;
    if proposals[n].proposalId != id {
      RequiredHasSlot(proposals[..n], id);
      assert forall i :: 0 <= i < n ==> proposals[..n][i] == proposals[i];
    } else {
      assert proposals[n].targetSlot == SlotOf(proposals, id).value;
    }
  }

  /** Whether the final answer may go out. */
  function GuardAllows(claimsCommitment: bool, c: Coverage): bool {
    !claimsCommitment || c.status == Complete
  }

  ghost predicate EveryRequiredCovered(plan: CapturePlan, receipts: seq<Receipt>, asked: Scope) {
    var ids := RequiredIds(plan.proposals);
    ids != [] && forall k :: 0 <= k < |ids| ==> IsCovered(ids[k], receipts, asked)
  }

  /** A full acknowledgement is given, and an answer that claims "saved" goes out, exactly when something was
      required and every required proposal has a committed receipt in scope; any other answer goes out anyway. */
  method Acknowledge(plan: CapturePlan, receipts: seq<Receipt>, asked: Scope, claimed: bool)
    returns (c: Coverage, ack: AckPlan, guard: bool)
    ensures ack.mode == FullAck <==> EveryRequiredCovered(plan, receipts, asked)
    ensures guard <==> (claimed ==> EveryRequiredCovered(plan, receipts, asked))
    ensures ack.mustNotClaimFullCommit <==> !EveryRequiredCovered(plan, receipts, asked)
    ensures c.status == Complete <==> EveryRequiredCovered(plan, receipts, asked)
    ensures RequiredIds(plan.proposals) == [] ==> c.status == NotApplicable && ack.mode == NoAck
    ensures ack.mode == PartialAck <==> c.covered != [] && c.missing != []
    ensures SlotsFollow(plan.proposals, c.covered, ack.coveredSlots) && SlotsFollow(plan.proposals, c.missing, ack.missingSlots)
  {
    c := ComputeReceiptCoverage(plan, receipts, asked);
    CompleteExactly(plan, receipts, asked);
    PartialExactly(c.expected, c.covered, receipts, asked);
    hide EveryRequiredCovered, Collected, CoveredSet, StatusOf, CommitsTo, IsOutOfScope, SlotsFollow, RequiredIds, SlotsOf;
    AckSlotsNameTheProposals(plan, c);
    ack := BuildAckPlan(plan, c);
    guard := GuardAllows(claimed, c);
  }

  lemma PartialExactly(expected: seq<string>, covered: seq<string>, receipts: seq<Receipt>, asked: Scope)
    requires Collected(covered, expected, receipts, asked)
    ensures StatusOf(expected, CoveredSet(expected, receipts, asked)) == Partial <==> covered != [] && Without(expected, covered) != []
    ensures forall id :: id in covered || id in Without(expected, covered) ==> id in expected
    ensures expected == [] ==> StatusOf(expected, CoveredSet(expected, receipts, asked)) == NotApplicable
  {
    WithoutIsMissing(expected, covered);
    CoveredOrNot(expected, covered, receipts, asked);
    hide Without;
  }

  lemma CompleteExactly(plan: CapturePlan, receipts: seq<Receipt>, asked: Scope)
    ensures var ids := RequiredIds(plan.proposals);
            StatusOf(ids, CoveredSet(ids, receipts, asked)) == Complete <==> EveryRequiredCovered(plan, receipts, asked)
  {
    hide IsCovered, RequiredIds;
    var ids := RequiredIds(plan.proposals);
    var covered := CoveredSet(ids, receipts, asked);
    if EveryRequiredCovered(plan, receipts, asked) {
      assert ids[0] in covered;
    }
    assert StatusOf(ids, covered) == Complete ==> forall k :: 0 <= k < |ids| ==> ids[k] in covered;
  }
}
