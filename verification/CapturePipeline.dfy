/** From extracted items to an acknowledgement: the capture plan, admission and the simulated receipts of
    brainstack/capture_pipeline.py. */
module CapturePipeline {
  import opened Results
  import opened Sequences
  import opened Text
  import opened WriteReceipts

  datatype Item = Item(
    targetSlot: string, normalizedValue: string, sourceSpanId: string, intent: string, stableKey: string,
    proposalId: string, surfaceValue: string, language: string, confidence: real, required: bool)

  /** The confidence entry of a mapping, which may be absent or not a number. */
  datatype Confidence = Absent | Unreadable | Given(value: real)

  datatype ItemMapping = ItemMapping(
    targetSlot: string, normalizedValue: string, sourceSpanId: string, intent: string, stableKey: string,
    proposalId: string, surfaceValue: string, language: string, confidence: Confidence, required: bool)

  datatype InputItem = Structured(item: Item) | Raw(entries: ItemMapping)

  /** `admit_claim(...).accepted` for the claim built from an item of a turn with that role. */
  type Admission = (Item, string) -> bool

  /** `str.casefold`. */
  type CaseFold = string -> string

  function FromItemMapping(hash: Hash, turnId: string, m: ItemMapping): Item {
    var slot, value, span := Normalize(m.targetSlot), Normalize(m.normalizedValue), Normalize(m.sourceSpanId);
    var key := FirstOf(Normalize(m.stableKey), slot);
    Item(slot, value, span, FirstOf(Normalize(m.intent), "explicit_capture"), key,
         FirstOf(Normalize(m.proposalId), StableId(hash, "cap", [turnId, slot, key, span, value])),
         FirstOf(Normalize(m.surfaceValue), value), Normalize(m.language),
         match m.confidence case Absent => 1.0 case Unreadable => 0.0 case Given(c) => c,
         m.required)
  }

  function Coerce(hash: Hash, turnId: string, input: InputItem): Item {
    match input
    case Structured(item) => item
    case Raw(m) => FromItemMapping(hash, turnId, m)
  }

  function CoerceAll(hash: Hash, turnId: string, inputs: seq<InputItem>): (items: seq<Item>)
    ensures |items| == |inputs|
  {
    if inputs == [] then [] else [Coerce(hash, turnId, inputs[0])] + CoerceAll(hash, turnId, inputs[1..])
  }

  predicate IsCandidate(item: Item) {
    item.targetSlot != "" && item.normalizedValue != "" && item.sourceSpanId != "" && item.confidence >= 0.5
  }

  function ToRef(item: Item): ProposalRef {
    ProposalRef(item.proposalId, item.targetSlot, item.stableKey, item.sourceSpanId, item.normalizedValue, item.required)
  }

  function Refs(items: seq<Item>): seq<ProposalRef> {
    if items == [] then []
    else
      var item := items[|items| - 1];
      Refs(items[..|items| - 1]) + if IsCandidate(item) then [ToRef(item)] else []
  }

  predicate IsUser(fold: CaseFold, role: string) {
    fold(Normalize(role)) == "user"
  }

  function BuildCapturePlan(fold: CaseFold, role: string, items: seq<Item>): CapturePlan {
    if !IsUser(fold, role) then FromProposals([], "rejected")
    else FromProposals(Refs(items), if Refs(items) != [] then "has_proposals" else "needs_clarification")
  }

  // ----- admission -----

  datatype Decision = Decision(proposalId: string, accepted: bool)

  predicate HasId(proposals: seq<ProposalRef>, id: string) {
    exists i :: 0 <= i < |proposals| && proposals[i].proposalId == id
  }

  /** The loop over the items: one decision, in order, for every item whose id is in the plan. */
  method DecideItems(admit: Admission, role: string, proposals: seq<ProposalRef>, items: seq<Item>)
    returns (decisions: seq<Decision>)
    ensures decisions == Decisions(admit, role, proposals, items)
  {
    decisions := [];
    for i := 0 to |items|
      invariant decisions == Decisions(admit, role, proposals, items[..i])
    {
      assert items[..i + 1][..i] == items[..i];
      if HasId(proposals, items[i].proposalId) {
        decisions := decisions + [Decision(items[i].proposalId, admit(items[i], role))];
      }
    }
    assert items[..|items|] == items;
  }

  function Decisions(admit: Admission, role: string, proposals: seq<ProposalRef>, items: seq<Item>): seq<Decision> {
    if items == [] then []
    else
      var item := items[|items| - 1];
      Decisions(admit, role, proposals, items[..|items| - 1])
      + if HasId(proposals, item.proposalId) then [Decision(item.proposalId, admit(item, role))] else []
  }

  function Accepted(decisions: seq<Decision>): set<string> {
    set i | 0 <= i < |decisions| && decisions[i].accepted :: decisions[i].proposalId
  }

  /** Some item with that id was admitted. */
  predicate Admitted(admit: Admission, role: string, items: seq<Item>, id: string) {
    exists j :: 0 <= j < |items| && items[j].proposalId == id && admit(items[j], role)
  }

  lemma {:induction false} AcceptedExactly(admit: Admission, role: string, proposals: seq<ProposalRef>, items: seq<Item>, id: string)
    ensures id in Accepted(Decisions(admit, role, proposals, items)) <==> HasId(proposals, id) && Admitted(admit, role, items, id)
  {
    hide HasId;
    if items != [] {
      var n := |items| - 1;
      var front := items[..n];
      AcceptedExactly(admit, role, proposals, front, id);
      AcceptedSnoc(Decisions(admit, role, proposals, front), Decision(items[n].proposalId, admit(items[n], role)));
      assert Admitted(admit, role, items, id) <==> Admitted(admit, role, front, id) || (items[n].proposalId == id && admit(items[n], role)) by {
        assert forall j :: 0 <= j < n ==> front[j] == items[j];
      }
      hide Accepted, Admitted;
      assert Decisions(admit, role, proposals, front) + [] == Decisions(admit, role, proposals, front);
    }
  }

  lemma AcceptedSnoc(decisions: seq<Decision>, d: Decision)
    ensures Accepted(decisions + [d]) == Accepted(decisions) + if d.accepted then {d.proposalId} else {}
  {
    var all := decisions + [d];
    assert all[|decisions|] == d && forall i :: 0 <= i < |decisions| ==> all[i] == decisions[i];
    assert forall id :: id in Accepted(decisions) ==> id in Accepted(all);
  }

  // ----- the simulated receipts -----

  /** `build_memory_write_receipt` as the simulation calls it. */
  function BuildReceipt(hash: Hash, scope: Scope, p: ProposalRef): Receipt {
    var key := Normalize(p.stableKey);
    var shelf := if OccursAt(p.targetSlot, "project.", 0) then "graph" else "profile";
    Receipt(true, "committed",
            [DurableRef(StableId(hash, "ref", [shelf, key, scope.principal]), p.targetSlot, key, true, true)],
            Scope(Normalize(scope.principal), Normalize(scope.workspace), Normalize(scope.session)),
            [p.proposalId])
  }

  function Receipts(hash: Hash, scope: Scope, accepted: set<string>, proposals: seq<ProposalRef>): seq<Receipt> {
    if proposals == [] then []
    else
      var p := proposals[|proposals| - 1];
      Receipts(hash, scope, accepted, proposals[..|proposals| - 1])
      + if p.proposalId in accepted then [BuildReceipt(hash, scope, p)] else []
  }

  /** The plan's proposals written out and read back. */
  function ReadBack(hash: Hash, proposals: seq<ProposalRef>): seq<ProposalRef> {
    if proposals == [] then []
    else ReadBack(hash, proposals[..|proposals| - 1]) + [FromMapping(hash, ToDict(proposals[|proposals| - 1]))]
  }

  predicate ScopeIsNormal(scope: Scope) {
    IsNormal(scope.principal) && IsNormal(scope.workspace) && IsNormal(scope.session)
  }

  predicate HasNamedSlot(proposals: seq<ProposalRef>, id: string) {
    exists i :: 0 <= i < |proposals| && proposals[i].proposalId == id && proposals[i].targetSlot != ""
  }

  /** A reference as `FromMapping` makes them. */
  predicate WellFormed(p: ProposalRef) {
    IsNormal(p.proposalId) && IsNormal(p.targetSlot) && IsNormal(p.stableKey) && (p.stableKey != "" || p.targetSlot == "")
  }

  lemma FromMappingIsWellFormed(hash: Hash, m: ProposalMapping)
    ensures WellFormed(FromMapping(hash, m))
  {
    hide Normalize, StableId;
    NormalizeIdempotent(m.proposalId);
    NormalizeIdempotent(m.stableKey);
    NormalizeIdempotent(m.targetSlot);
    GeneratedIdIsWord(hash, "cap", [m.turnId, FromMapping(hash, m).stableKey, m.sourceSpanId, m.normalizedValue]);
  }

  lemma {:induction false} ReadBackWellFormed(hash: Hash, proposals: seq<ProposalRef>)
    ensures forall i :: 0 <= i < |ReadBack(hash, proposals)| ==> WellFormed(ReadBack(hash, proposals)[i])
  {
    hide WellFormed, FromMapping;
    if proposals != [] {
      ReadBackWellFormed(hash, proposals[..|proposals| - 1]);
      FromMappingIsWellFormed(hash, ToDict(proposals[|proposals| - 1]));
    }
  }

  /** The receipt of a proposal covers exactly its own id, and only with a slot and normalised scope keys. */
  lemma ReceiptCovers(hash: Hash, scope: Scope, p: ProposalRef, id: string)
    requires WellFormed(p)
    ensures Covers(BuildReceipt(hash, scope, p), scope, id) <==>
            p.proposalId == id && p.targetSlot != "" && ScopeIsNormal(scope)
  {
    var r := BuildReceipt(hash, scope, p);
    hide Normalize, OccursAt, StableId;
    NormalizeOfEmpty();
    assert Normalize(r.durableRefs[0].refId) != "" by {
      var shelf := if OccursAt(p.targetSlot, "project.", 0) then "graph" else "profile";
      GeneratedIdIsWord(hash, "ref", [shelf, Normalize(p.stableKey), scope.principal]);
    }
    assert IsCommitted(r) <==> GoodRef(r.durableRefs[0]);
    assert Lists(r, id) <==> Normalize(r.proposalIds[0]) == id;
  }

  lemma {:induction false} ReceiptsCover(hash: Hash, scope: Scope, accepted: set<string>, proposals: seq<ProposalRef>, id: string)
    requires forall i :: 0 <= i < |proposals| ==> WellFormed(proposals[i])
    ensures IsCovered(id, Receipts(hash, scope, accepted, proposals), scope) <==>
            id in accepted && HasNamedSlot(proposals, id) && ScopeIsNormal(scope)
  {
    hide Covers, WellFormed, ScopeIsNormal, BuildReceipt, IsOutOfScope;
    if proposals != [] {
      var n := |proposals| - 1;
      var front := proposals[..n];
      ReceiptsCover(hash, scope, accepted, front, id);
      ReceiptCovers(hash, scope, proposals[n], id);
      OneMoreReceipt(Receipts(hash, scope, accepted, front), BuildReceipt(hash, scope, proposals[n]), scope);
      assert HasNamedSlot(proposals, id) <==> HasNamedSlot(front, id) || (proposals[n].proposalId == id && proposals[n].targetSlot != "") by {
        assert forall i :: 0 <= i < n ==> front[i] == proposals[i];
      }
      hide IsCovered, HasNamedSlot;
      assert Receipts(hash, scope, accepted, front) + [] == Receipts(hash, scope, accepted, front);
    }
  }

  /** Something is required, and every required id was accepted and names a slot, in normalised scope keys. */
  ghost predicate Saved(proposals: seq<ProposalRef>, accepted: set<string>, scope: Scope) {
    var ids := RequiredIds(proposals);
    && ids != [] && ScopeIsNormal(scope)
    && forall k :: 0 <= k < |ids| ==> ids[k] in accepted && HasNamedSlot(proposals, ids[k])
  }

  datatype Outcome = Outcome(plan: CapturePlan, decisions: seq<Decision>, receipts: seq<Receipt>, coverage: Coverage, ack: AckPlan)

  /** The whole run, from inputs to acknowledgement. */
  method Simulate(fold: CaseFold, hash: Hash, admit: Admission, turnId: string, role: string, inputs: seq<InputItem>, scope: Scope)
    returns (out: Outcome)
    ensures out.plan == BuildCapturePlan(fold, role, CoerceAll(hash, turnId, inputs))
    ensures out.decisions == Decisions(admit, role, out.plan.proposals, CoerceAll(hash, turnId, inputs))
    ensures out.receipts == Receipts(hash, scope, Accepted(out.decisions), ReadBack(hash, out.plan.proposals))
    ensures out.coverage.status == Complete <==>
            Saved(ReadBack(hash, out.plan.proposals), Accepted(out.decisions), scope)
    ensures out.ack.mode == FullAck <==> out.coverage.status == Complete
    ensures !IsUser(fold, role) ==>
              out.decisions == [] && out.receipts == [] && out.coverage.status == NotApplicable && out.ack.mode == NoAck
  {
    var items := CoerceAll(hash, turnId, inputs);
    var plan := BuildCapturePlan(fold, role, items);
    var decisions := [];
    if plan.status == "has_proposals" {
      decisions := DecideItems(admit, role, plan.proposals, items);
    } else {
      NoDecisions(admit, role, items);
    }
    var again := FromProposals(ReadBack(hash, plan.proposals), plan.status);
    var receipts := Receipts(hash, scope, Accepted(decisions), again.proposals);
    var coverage, ack, guard := Acknowledge(again, receipts, scope, true);
    SavedIsCovered(hash, scope, Accepted(decisions), plan.proposals, again);
    out := Outcome(plan, decisions, receipts, coverage, ack);
  }

  lemma {:induction false} NoDecisions(admit: Admission, role: string, items: seq<Item>)
    ensures Decisions(admit, role, [], items) == []
  {
    if items != [] {
      NoDecisions(admit, role, items[..|items| - 1]);
    }
  }

  lemma SavedIsCovered(hash: Hash, scope: Scope, accepted: set<string>, proposals: seq<ProposalRef>, plan: CapturePlan)
    requires plan.proposals == ReadBack(hash, proposals)
    ensures EveryRequiredCovered(plan, Receipts(hash, scope, accepted, plan.proposals), scope) <==> Saved(plan.proposals, accepted, scope)
  {
    hide IsCovered, HasNamedSlot, ScopeIsNormal, RequiredIds, Receipts, ReadBack, WellFormed;
    ReadBackWellFormed(hash, proposals);
    var ids := RequiredIds(plan.proposals);
    forall k | 0 <= k < |ids|
      ensures IsCovered(ids[k], Receipts(hash, scope, accepted, plan.proposals), scope) <==>
              ids[k] in accepted && HasNamedSlot(plan.proposals, ids[k]) && ScopeIsNormal(scope)
    {
      ReceiptsCover(hash, scope, accepted, plan.proposals, ids[k]);
    }
    assert ids != [] && !ScopeIsNormal(scope) ==> !IsCovered(ids[0], Receipts(hash, scope, accepted, plan.proposals), scope);
  }

  // ----- end to end, in terms of the items -----

  /** An item that must be saved before a full acknowledgement: it names a slot, a value and a span, is at least half
      certain, and is asked for. */
  predicate Needed(item: Item) {
    && item.targetSlot != "" && item.normalizedValue != "" && item.sourceSpanId != "" && item.confidence >= 0.5
    && item.required
  }

  /** An item given as a mapping becomes a candidate exactly when its slot, value and span are not blank and its
      confidence is absent or at least one half; one that cannot be read counts as none. */
  lemma RawCandidate(hash: Hash, turnId: string, m: ItemMapping)
    ensures IsCandidate(FromItemMapping(hash, turnId, m)) <==>
            && !Blank(m.targetSlot) && !Blank(m.normalizedValue) && !Blank(m.sourceSpanId)
            && (m.confidence.Absent? || (m.confidence.Given? && m.confidence.value >= 0.5))
  {
    NormalBlank(m.targetSlot);
    NormalBlank(m.normalizedValue);
    NormalBlank(m.sourceSpanId);
    hide Normalize, Blank, StableId;
  }

  /** Its texts are normalised, and where it has no stable key, id, intent or surface value the slot, a digest of the
      other parts, the plain capture and the value stand in. */
  lemma RawItem(hash: Hash, turnId: string, m: ItemMapping)
    ensures var item := FromItemMapping(hash, turnId, m);
            && item.targetSlot == Normalize(m.targetSlot) && item.normalizedValue == Normalize(m.normalizedValue)
            && item.sourceSpanId == Normalize(m.sourceSpanId) && item.language == Normalize(m.language)
            && item.required == m.required
            && item.stableKey == Normalize(if Blank(m.stableKey) then m.targetSlot else m.stableKey)
            && item.intent == (if Blank(m.intent) then "explicit_capture" else Normalize(m.intent))
            && item.surfaceValue == Normalize(if Blank(m.surfaceValue) then m.normalizedValue else m.surfaceValue)
            && item.proposalId == (if Blank(m.proposalId) then
                                     "cap_" + hash([turnId, item.targetSlot, item.stableKey, item.sourceSpanId, item.normalizedValue])
                                   else Normalize(m.proposalId))
  {
    NormalBlank(m.stableKey);
    NormalBlank(m.intent);
    NormalBlank(m.surfaceValue);
    NormalBlank(m.proposalId);
    hide Normalize, Blank;
  }

  /** What the plan says of itself: rejected for another role than the user's, and otherwise whether there is a
      candidate; a plan put together from references never claims proposals that it does not have. */
  lemma PlanStatus(fold: CaseFold, role: string, items: seq<Item>, refs: seq<ProposalRef>, status: string)
    ensures BuildCapturePlan(fold, role, items).status ==
            if fold(Normalize(role)) != "user" then "rejected"
            else if exists i :: 0 <= i < |items| && IsCandidate(items[i]) then "has_proposals"
            else "needs_clarification"
    ensures FromProposals(refs, status).proposals == refs
    ensures FromProposals(refs, status).status == if refs == [] && status == "has_proposals" then "no_capture" else status
  {
    hide Normalize, IsCandidate;
    var at := PlanExactly(items);
    hide Refs;
    assert Refs(items) == [] <==> at == [];
    if at != [] {
      assert IsCandidate(items[at[0]]);
    }
    if i :| 0 <= i < |items| && IsCandidate(items[i]) {
      assert i in at;
    }
  }

  /** What is in the plan: a reference to each candidate, in order. */
  lemma {:induction false} PlanExactly(items: seq<Item>) returns (at: seq<nat>)
    ensures Picks(items, IsCandidate, ToRef, Refs(items), at)
  {
    hide Picks;
    if items == [] {
      at := [];
      PicksNothing(IsCandidate, ToRef);
    } else {
      var n := |items| - 1;
      var front := PlanExactly(items[..n]);
      PicksSnoc(items[..n], items[n], IsCandidate, ToRef, Refs(items[..n]), front);
      assert items[..n] + [items[n]] == items && Refs(items[..n]) + [] == Refs(items[..n]);
      at := if IsCandidate(items[n]) then front + [n] else front;
    }
  }

  predicate NeededId(items: seq<Item>, id: string) {
    exists i :: 0 <= i < |items| && Needed(items[i]) && items[i].proposalId == id
  }

  ghost predicate ItemsSurvive(items: seq<Item>) {
    forall i :: 0 <= i < |items| && IsCandidate(items[i]) ==> Survives(ToRef(items[i]))
  }

  lemma {:induction false} RefsReadBack(hash: Hash, items: seq<Item>)
    requires ItemsSurvive(items)
    ensures ReadBack(hash, Refs(items)) == Refs(items)
  {
    hide Survives, IsCandidate, FromMapping, ToRef;
    if items != [] {
      var n := |items| - 1;
      var front := items[..n];
      assert ItemsSurvive(front) by {
        assert forall i :: 0 <= i < n ==> front[i] == items[i];
      }
      RefsReadBack(hash, front);
      if IsCandidate(items[n]) {
        var p := ToRef(items[n]);
        RoundTrip(hash, p);
        assert Refs(items) == Refs(front) + [p];
        assert (Refs(front) + [p])[..|Refs(front)|] == Refs(front);
      } else {
        assert Refs(items) == Refs(front);
      }
    }
  }

  lemma {:induction false} RequiredAreNeeded(items: seq<Item>, id: string)
    ensures id in RequiredIds(Refs(items)) <==> NeededId(items, id)
    ensures HasNamedSlot(Refs(items), id) <==> HasId(Refs(items), id)
    ensures id in RequiredIds(Refs(items)) ==> HasId(Refs(items), id)
  {
    if items != [] {
      var n := |items| - 1;
      var front := items[..n];
      RequiredAreNeeded(front, id);
      NeededSnoc(items, id);
      hide NeededId, Needed;
      if IsCandidate(items[n]) {
        RefsSnoc(Refs(front), ToRef(items[n]), id);
      } else {
        assert Refs(items) == Refs(front);
      }
    }
  }

  lemma NeededSnoc(items: seq<Item>, id: string)
    requires items != []
    ensures var n := |items| - 1;
            NeededId(items, id) <==> NeededId(items[..n], id) || (Needed(items[n]) && items[n].proposalId == id)
  {
    hide Needed;
    assert forall i :: 0 <= i < |items| - 1 ==> items[..|items| - 1][i] == items[i];
  }

  lemma RefsSnoc(refs: seq<ProposalRef>, p: ProposalRef, id: string)
    ensures id in RequiredIds(refs + [p]) <==> id in RequiredIds(refs) || (p.required && p.proposalId == id)
    ensures HasNamedSlot(refs + [p], id) <==> HasNamedSlot(refs, id) || (p.targetSlot != "" && p.proposalId == id)
    ensures HasId(refs + [p], id) <==> HasId(refs, id) || p.proposalId == id
  {
    var all := refs + [p];
    assert all[..|refs|] == refs && all[|refs|] == p;
    assert forall i :: 0 <= i < |refs| ==> all[i] == refs[i];
  }

  lemma {:induction false} CoerceAt(hash: Hash, turnId: string, inputs: seq<InputItem>, i: nat)
    requires i < |inputs|
    ensures CoerceAll(hash, turnId, inputs)[i] == Coerce(hash, turnId, inputs[i])
  {
    if i > 0 {
      CoerceAt(hash, turnId, inputs[1..], i - 1);
    }
  }

  /** Items read from mappings always survive the trip through the plan's dictionary. */
  lemma RawItemsSurvive(hash: Hash, turnId: string, inputs: seq<InputItem>)
    requires forall i :: 0 <= i < |inputs| ==> inputs[i].Raw?
    ensures ItemsSurvive(CoerceAll(hash, turnId, inputs))
  {
    hide Survives, FromItemMapping;
    var items := CoerceAll(hash, turnId, inputs);
    forall i | 0 <= i < |items| && IsCandidate(items[i]) ensures Survives(ToRef(items[i])) {
      CoerceAt(hash, turnId, inputs, i);
      RawItemSurvives(hash, turnId, inputs[i].entries);
    }
  }

  lemma RawItemSurvives(hash: Hash, turnId: string, m: ItemMapping)
    ensures var item := FromItemMapping(hash, turnId, m); IsCandidate(item) ==> Survives(ToRef(item))
  {
    hide Normalize, StableId;
    NormalizeIdempotent(m.proposalId);
    NormalizeIdempotent(m.stableKey);
    NormalizeIdempotent(m.targetSlot);
    NormalizeIdempotent(m.sourceSpanId);
    NormalizeIdempotent(m.normalizedValue);
    var item := FromItemMapping(hash, turnId, m);
    GeneratedIdIsWord(hash, "cap", [turnId, item.targetSlot, item.stableKey, item.sourceSpanId, item.normalizedValue]);
  }

  /** A user turn whose candidates survive is saved exactly when the scope keys are normalised, something is
      needed, and for every needed item an item with its id was admitted. */
  lemma SavedExactly(fold: CaseFold, hash: Hash, admit: Admission, role: string, items: seq<Item>, scope: Scope)
    requires IsUser(fold, role) && ItemsSurvive(items)
    ensures var proposals := BuildCapturePlan(fold, role, items).proposals;
            Saved(ReadBack(hash, proposals), Accepted(Decisions(admit, role, proposals, items)), scope) <==>
            && ScopeIsNormal(scope)
            && (exists i :: 0 <= i < |items| && Needed(items[i]))
            && forall i :: 0 <= i < |items| && Needed(items[i]) ==> Admitted(admit, role, items, items[i].proposalId)
  {
    hide ScopeIsNormal, Needed, Admitted, HasId, HasNamedSlot, Refs, ReadBack, Decisions, Accepted, ItemsSurvive, RequiredIds;
    RefsReadBack(hash, items);
    var proposals := Refs(items);
    var ids := RequiredIds(proposals);
    var accepted := Accepted(Decisions(admit, role, proposals, items));
    forall id
      ensures id in ids <==> NeededId(items, id)
      ensures id in ids ==> HasNamedSlot(proposals, id)
      ensures id in ids ==> (id in accepted <==> Admitted(admit, role, items, id))
    {
      RequiredAreNeeded(items, id);
      AcceptedExactly(admit, role, proposals, items, id);
    }
    forall i | 0 <= i < |items| && Needed(items[i]) ensures items[i].proposalId in ids {
      assert NeededId(items, items[i].proposalId);
    }
    if ids != [] {
      assert ids[0] in ids;
      assert NeededId(items, ids[0]);
    }
    hide HasNamedSlot;
    assert (forall k :: 0 <= k < |ids| ==> ids[k] in accepted) <==> forall id :: id in ids ==> id in accepted;
  }
}
