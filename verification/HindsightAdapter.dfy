/** Normalisation of donor proposal batches, from brainstack/hindsight_spine_adapter.py. */
module HindsightAdapter {
  import opened Sequences
  import opened Text

  type MemoryRef = map<string, string>

  /** A donor's action as a mapping; an absent entry reads as empty. */
  datatype RawAction = RawAction(
    proposalId: string, action: string, targetKind: string, targetSlot: string, stableKey: string,
    valueFingerprint: string, normalizedValueHash: string, confidence: real, reasonCode: string,
    spanIds: seq<string>, eventIds: seq<string>, refs: seq<MemoryRef>,
    assertionSpeaker: string, sourceRole: string, supportVisibility: string)

  datatype RawItem = NotAMapping | Mapped(entries: RawAction)

  datatype Action = Action(
    proposalId: string, action: string, targetKind: string, targetSlot: string, stableKey: string,
    valueFingerprint: string, confidence: real, reasonCode: string,
    spanIds: seq<string>, eventIds: seq<string>, refs: seq<MemoryRef>, speaker: string, supportVisibility: string)

  datatype Note = TextNote(text: string) | CountNote(count: nat)

  type Failures = map<string, Note>

  datatype RawBatch = RawBatch(operationId: string, status: string, items: seq<RawItem>, failure: Failures)

  datatype Batch = Batch(
    operationId: string, status: string, actions: seq<Action>, failure: Failures, missingSources: nat, unsupported: nat)

  /** What a generated proposal id is the digest of. */
  datatype Seed = Seed(
    operationId: string, index: nat, action: string, targetKind: string, targetSlot: string, fingerprint: string, spanIds: seq<string>)

  /** `str.lower` and the digest. */
  datatype Tools = Tools(lower: string -> string, hash: Seed -> HexDigest)

  const SUPPORTED_ACTIONS: seq<string> :=
    ["create", "retain", "update", "correct", "correction", "delete", "delete_or_supersede", "supersede", "ignore", "failed_batch"]

  const SUPPORTED_TARGET_KINDS: seq<string> :=
    ["user_fact", "project_fact", "style_rule", "operating_memory", "graph_relation", "temporal_event", "support_context"]

  /** The non-blank texts, stripped. */
  function Texts(raw: seq<string>): seq<string> {
    if raw == [] then []
    else
      var t := Strip(raw[|raw| - 1]);
      Texts(raw[..|raw| - 1]) + if t != "" then [t] else []
  }

  function Speaker(tools: Tools, a: RawAction): string {
    tools.lower(Strip(FirstOf(a.assertionSpeaker, a.sourceRole)))
  }

  predicate IsAssistant(speaker: string) {
    speaker == "assistant" || speaker == "quoted_assistant"
  }

  predicate IsSupported(a: RawAction) {
    Strip(a.action) in SUPPORTED_ACTIONS && Strip(a.targetKind) in SUPPORTED_TARGET_KINDS
  }

  function NormalizeAction(tools: Tools, operationId: string, index: nat, a: RawAction): Action {
    var action, kind, spans := Strip(a.action), Strip(a.targetKind), Texts(a.spanIds);
    var fingerprint := FirstOf(a.valueFingerprint, a.normalizedValueHash);
    var seed := Seed(operationId, index, action, kind, a.targetSlot, fingerprint, spans);
    Action(
      FirstOf(Strip(a.proposalId), "hprop_" + tools.hash(seed)),
      if action in SUPPORTED_ACTIONS then action else "failed_batch",
      if kind in SUPPORTED_TARGET_KINDS then kind else "support_context",
      Strip(a.targetSlot), Strip(a.stableKey), Strip(fingerprint), a.confidence,
      FirstOf(Strip(a.reasonCode), "HINDSIGHT_PROPOSAL"),
      spans, Texts(a.eventIds), a.refs, FirstOf(Speaker(tools, a), "unknown"),
      FirstOf(Strip(a.supportVisibility), "inspect_only"))
  }

  predicate IsDropped(tools: Tools, item: RawItem) {
    item.Mapped? && IsAssistant(Speaker(tools, item.entries))
  }

  predicate IsKept(tools: Tools, item: RawItem) {
    item.Mapped? && !IsAssistant(Speaker(tools, item.entries))
  }

  function ActionsOf(tools: Tools, operationId: string, items: seq<RawItem>): seq<Action> {
    if items == [] then []
    else
      var n := |items| - 1;
      ActionsOf(tools, operationId, items[..n])
      + if IsKept(tools, items[n]) then [NormalizeAction(tools, operationId, n, items[n].entries)] else []
  }

  function CountDropped(tools: Tools, items: seq<RawItem>): nat {
    if items == [] then 0
    else CountDropped(tools, items[..|items| - 1]) + if IsDropped(tools, items[|items| - 1]) then 1 else 0
  }

  function CountUnsupported(tools: Tools, items: seq<RawItem>): nat {
    if items == [] then 0
    else
      var item := items[|items| - 1];
      CountUnsupported(tools, items[..|items| - 1])
      + if item.NotAMapping? || (IsKept(tools, item) && !IsSupported(item.entries)) then 1 else 0
  }

  function CountMissing(tools: Tools, items: seq<RawItem>): nat {
    if items == [] then 0
    else
      var item := items[|items| - 1];
      CountMissing(tools, items[..|items| - 1]) + if IsKept(tools, item) && Texts(item.entries.spanIds) == [] then 1 else 0
  }

  function StatusOf(given: string, kept: nat, dropped: nat, counted: nat): string {
    var status := if dropped > 0 then "degraded" else FirstOf(Strip(given), if kept > 0 then "ok" else "empty");
    if counted > 0 && status == "ok" then "degraded" else status
  }

  function FailureOf(given: Failures, dropped: nat): Failures {
    if dropped == 0 then given
    else
      var named := if "reason_code" in given then given else given["reason_code" := TextNote("HINDSIGHT_ASSISTANT_AUTHORED_ACTION_DROPPED")];
      named["dropped_assistant_authored_actions" := CountNote(dropped)]
  }

  function NormalBatch(tools: Tools, raw: RawBatch): Batch {
    var actions := ActionsOf(tools, raw.operationId, raw.items);
    var missing, unsupported := CountMissing(tools, raw.items), CountUnsupported(tools, raw.items);
    var dropped := CountDropped(tools, raw.items);
    Batch(Strip(raw.operationId), StatusOf(raw.status, |actions|, dropped, missing + unsupported), actions,
          FailureOf(raw.failure, dropped), missing, unsupported)
  }

  lemma NothingRead(tools: Tools, operationId: string)
    ensures ActionsOf(tools, operationId, []) == []
    ensures CountDropped(tools, []) == CountMissing(tools, []) == CountUnsupported(tools, []) == 0
  {
  }

  /** What reading one more item adds to each list and count. */
  lemma OneMoreItem(tools: Tools, operationId: string, items: seq<RawItem>, i: nat)
    requires i < |items|
    ensures ActionsOf(tools, operationId, items[..i + 1]) == ActionsOf(tools, operationId, items[..i])
            + if IsKept(tools, items[i]) then [NormalizeAction(tools, operationId, i, items[i].entries)] else []
    ensures CountDropped(tools, items[..i + 1]) == CountDropped(tools, items[..i]) + if IsDropped(tools, items[i]) then 1 else 0
    ensures CountMissing(tools, items[..i + 1]) == CountMissing(tools, items[..i])
            + if IsKept(tools, items[i]) && Texts(items[i].entries.spanIds) == [] then 1 else 0
    ensures CountUnsupported(tools, items[..i + 1]) == CountUnsupported(tools, items[..i])
            + if items[i].NotAMapping? || (IsKept(tools, items[i]) && !IsSupported(items[i].entries)) then 1 else 0
  {
    hide IsKept, IsDropped, IsSupported, NormalizeAction, Texts;
    assert items[..i + 1][..i] == items[..i];
  }

  /** The loop over the donor's actions. */
  method NormalizeProposalActionBatch(tools: Tools, raw: RawBatch) returns (b: Batch)
    ensures b == NormalBatch(tools, raw)
    ensures forall i :: 0 <= i < |b.actions| ==> b.actions[i].speaker !in {"assistant", "quoted_assistant"}
  {
    NoAssistantActs(tools, raw.operationId, raw.items);
    hide Speaker, NormalizeAction, IsSupported, IsAssistant, Texts, Strip, ActionsOf, CountDropped, CountMissing, CountUnsupported;
    NothingRead(tools, raw.operationId);
    var actions, dropped, missing, unsupported := [], 0, 0, 0;
    var items := raw.items;
    for i := 0 to |items|
      invariant dropped >= 0 && missing >= 0 && unsupported >= 0
      invariant actions == ActionsOf(tools, raw.operationId, items[..i])
      invariant dropped == CountDropped(tools, items[..i])
      invariant missing == CountMissing(tools, items[..i])
      invariant unsupported == CountUnsupported(tools, items[..i])
    {
      OneMoreItem(tools, raw.operationId, items, i);
      match items[i] {
        case NotAMapping =>
          unsupported := unsupported + 1;
        case Mapped(a) =>
          if IsAssistant(Speaker(tools, a)) {
            dropped := dropped + 1;
          } else {
            if !IsSupported(a) {
              unsupported := unsupported + 1;
            }
            if Texts(a.spanIds) == [] {
              missing := missing + 1;
            }
            actions := actions + [NormalizeAction(tools, raw.operationId, i, a)];
          }
      }
    }
    assert items[..|items|] == items;
    var status := FirstOf(Strip(raw.status), if actions != [] then "ok" else "empty");
    var failure := raw.failure;
    if dropped > 0 {
      status := "degraded";
      if "reason_code" !in failure {
        failure := failure["reason_code" := TextNote("HINDSIGHT_ASSISTANT_AUTHORED_ACTION_DROPPED")];
      }
      failure := failure["dropped_assistant_authored_actions" := CountNote(dropped)];
    }
    if (missing > 0 || unsupported > 0) && status == "ok" {
      status := "degraded";
    }
    b := Batch(Strip(raw.operationId), status, actions, failure, missing, unsupported);
  }

  // ----- what is kept -----

  /** The donor's action is spoken by someone else than the assistant, by the first of its two names for the speaker
      that is there. */
  ghost predicate SpokenByOther(tools: Tools, item: RawItem) {
    && item.Mapped?
    && tools.lower(Strip(if item.entries.assertionSpeaker != "" then item.entries.assertionSpeaker else item.entries.sourceRole))
       !in {"assistant", "quoted_assistant"}
  }

  ghost function Others(tools: Tools): RawItem -> bool {
    item => SpokenByOther(tools, item)
  }

  /** Each action is made of the item at its place, with the place as index. */
  ghost predicate ActionsAt(tools: Tools, operationId: string, items: seq<RawItem>, actions: seq<Action>, at: seq<nat>) {
    && |actions| == |at|
    && forall i :: 0 <= i < |at| ==>
         at[i] < |items| && items[at[i]].Mapped? && actions[i] == NormalizeAction(tools, operationId, at[i], items[at[i]].entries)
  }

  lemma ActionsAtSnoc(tools: Tools, operationId: string, items: seq<RawItem>, item: RawItem, actions: seq<Action>, at: seq<nat>)
    requires ActionsAt(tools, operationId, items, actions, at)
    ensures ActionsAt(tools, operationId, items + [item], actions, at)
    ensures item.Mapped? ==>
              ActionsAt(tools, operationId, items + [item],
                        actions + [NormalizeAction(tools, operationId, |items|, item.entries)], at + [|items|])
  {
    hide NormalizeAction;
    assert forall i :: 0 <= i < |items| ==> (items + [item])[i] == items[i];
  }

  lemma NoActions(tools: Tools, operationId: string)
    ensures ActionsAt(tools, operationId, [], [], [])
  {
  }

  /** The actions are those of the items not spoken by an assistant, in order. */
  lemma {:induction false} ActionsExactly(tools: Tools, operationId: string, items: seq<RawItem>) returns (at: seq<nat>)
    ensures Picked(items, Others(tools), at) && ActionsAt(tools, operationId, items, ActionsOf(tools, operationId, items), at)
  {
    hide NormalizeAction, Picked, ActionsAt, SpokenByOther, IsKept;
    if items == [] {
      at := [];
      PicksNothing(Others(tools), Itself<RawItem>);
      NoActions(tools, operationId);
    } else {
      var n := |items| - 1;
      var front := ActionsExactly(tools, operationId, items[..n]);
      var actions := ActionsOf(tools, operationId, items[..n]);
      PickedSnoc(items[..n], items[n], Others(tools), front);
      ActionsAtSnoc(tools, operationId, items[..n], items[n], actions, front);
      KeptIsOther(tools, items[n]);
      assert items[..n] + [items[n]] == items && actions + [] == actions;
      at := if IsKept(tools, items[n]) then front + [n] else front;
    }
  }

  lemma KeptIsOther(tools: Tools, item: RawItem)
    ensures IsKept(tools, item) <==> SpokenByOther(tools, item)
    ensures IsKept(tools, item) ==> item.Mapped?
  {
    hide Strip;
  }

  ghost predicate DropsItem(tools: Tools, item: RawItem) {
    item.Mapped? && !SpokenByOther(tools, item)
  }

  ghost function Drops(tools: Tools): RawItem -> bool {
    item => DropsItem(tools, item)
  }

  /** An item that is no mapping, or whose kept action or target kind has no known name. */
  ghost predicate UnsupportedItem(tools: Tools, item: RawItem) {
    item.NotAMapping?
    || (SpokenByOther(tools, item)
        && !(Strip(item.entries.action) in SUPPORTED_ACTIONS && Strip(item.entries.targetKind) in SUPPORTED_TARGET_KINDS))
  }

  ghost function Unsupported(tools: Tools): RawItem -> bool {
    item => UnsupportedItem(tools, item)
  }

  /** A kept item none of whose listed spans is more than whitespace. */
  ghost predicate SourcelessItem(tools: Tools, item: RawItem) {
    SpokenByOther(tools, item) && forall i :: 0 <= i < |item.entries.spanIds| ==> Blank(item.entries.spanIds[i])
  }

  ghost function Sourceless(tools: Tools): RawItem -> bool {
    item => SourcelessItem(tools, item)
  }

  lemma {:induction false} NoTexts(raw: seq<string>)
    ensures Texts(raw) == [] <==> forall i :: 0 <= i < |raw| ==> Blank(raw[i])
  {
    hide Strip, Blank;
    if raw != [] {
      var n := |raw| - 1;
      NoTexts(raw[..n]);
      StripBlank(raw[n]);
      assert forall i :: 0 <= i < n ==> raw[..n][i] == raw[i];
    }
  }

  /** The three counts count: items dropped for their speaker, unsupported ones, and kept ones without a source. */
  lemma {:induction false} CountsExactly(tools: Tools, items: seq<RawItem>)
    returns (dropped: seq<nat>, unsupported: seq<nat>, sourceless: seq<nat>)
    ensures Picked(items, Drops(tools), dropped) && CountDropped(tools, items) == |dropped|
    ensures Picked(items, Unsupported(tools), unsupported) && CountUnsupported(tools, items) == |unsupported|
    ensures Picked(items, Sourceless(tools), sourceless) && CountMissing(tools, items) == |sourceless|
  {
    hide Picked, CountDropped, CountUnsupported, CountMissing, SpokenByOther, DropsItem, UnsupportedItem, SourcelessItem;
    if items == [] {
      dropped, unsupported, sourceless := [], [], [];
      PicksNothing(Drops(tools), Itself<RawItem>);
      PicksNothing(Unsupported(tools), Itself<RawItem>);
      PicksNothing(Sourceless(tools), Itself<RawItem>);
      NothingRead(tools, "");
    } else {
      var n := |items| - 1;
      dropped, unsupported, sourceless := CountsExactly(tools, items[..n]);
      PickedSnoc(items[..n], items[n], Drops(tools), dropped);
      PickedSnoc(items[..n], items[n], Unsupported(tools), unsupported);
      PickedSnoc(items[..n], items[n], Sourceless(tools), sourceless);
      assert items[..n] + [items[n]] == items && items[..n + 1] == items;
      OneMoreCounted(tools, items, n);
      dropped := if DropsItem(tools, items[n]) then dropped + [n] else dropped;
      unsupported := if UnsupportedItem(tools, items[n]) then unsupported + [n] else unsupported;
      sourceless := if SourcelessItem(tools, items[n]) then sourceless + [n] else sourceless;
    }
  }

  lemma OneMoreCounted(tools: Tools, items: seq<RawItem>, n: nat)
    requires n < |items|
    ensures CountDropped(tools, items[..n + 1]) == CountDropped(tools, items[..n]) + if DropsItem(tools, items[n]) then 1 else 0
    ensures CountUnsupported(tools, items[..n + 1]) == CountUnsupported(tools, items[..n]) + if UnsupportedItem(tools, items[n]) then 1 else 0
    ensures CountMissing(tools, items[..n + 1]) == CountMissing(tools, items[..n]) + if SourcelessItem(tools, items[n]) then 1 else 0
  {
    hide Strip, Texts, CountDropped, CountUnsupported, CountMissing, ActionsOf, NormalizeAction, Blank;
    OneMoreItem(tools, "", items, n);
    if items[n].Mapped? {
      NoTexts(items[n].entries.spanIds);
    }
  }

  /** The status: the given one, or "ok" or "empty" by default, is degraded when an action was dropped for its speaker,
      and an "ok" also when something is unsupported or has no source. */
  lemma StatusExactly(tools: Tools, raw: RawBatch)
    ensures var b := NormalBatch(tools, raw);
            var given := if !Blank(raw.status) then Strip(raw.status) else if b.actions != [] then "ok" else "empty";
            b.status == if CountDropped(tools, raw.items) > 0 || (given == "ok" && b.missingSources + b.unsupported > 0) then "degraded"
                        else given
  {
    StripBlank(raw.status);
    hide Strip, Blank, ActionsOf, CountDropped, CountUnsupported, CountMissing, FailureOf;
  }

  /** The failure: the given one, with the number of dropped actions and a reason, unless it has one, if there are any. */
  lemma FailureExactly(tools: Tools, raw: RawBatch)
    ensures var failure, dropped := NormalBatch(tools, raw).failure, CountDropped(tools, raw.items);
            && (dropped == 0 ==> failure == raw.failure)
            && (dropped > 0 ==>
                  && failure.Keys == raw.failure.Keys + {"reason_code", "dropped_assistant_authored_actions"}
                  && failure["dropped_assistant_authored_actions"] == CountNote(dropped)
                  && ("reason_code" !in raw.failure ==>
                        failure["reason_code"] == TextNote("HINDSIGHT_ASSISTANT_AUTHORED_ACTION_DROPPED"))
                  && forall k :: k in raw.failure && k != "dropped_assistant_authored_actions" ==> failure[k] == raw.failure[k])
  {
    assert |"reason_code"| != |"dropped_assistant_authored_actions"|;
    hide ActionsOf, CountDropped, CountUnsupported, CountMissing, StatusOf;
  }

  lemma {:induction false} NoAssistantActs(tools: Tools, operationId: string, items: seq<RawItem>)
    ensures forall i :: 0 <= i < |ActionsOf(tools, operationId, items)| ==>
              ActionsOf(tools, operationId, items)[i].speaker !in {"assistant", "quoted_assistant"}
  {
    hide Speaker, Strip, Texts;
    if items != [] {
      NoAssistantActs(tools, operationId, items[..|items| - 1]);
    }
  }

  // ----- normalising again -----

  function ActionEntries(a: Action): RawAction {
    RawAction(a.proposalId, a.action, a.targetKind, a.targetSlot, a.stableKey, a.valueFingerprint, "", a.confidence,
              a.reasonCode, a.spanIds, a.eventIds, a.refs, a.speaker, "", a.supportVisibility)
  }

  function Entries(actions: seq<Action>): (items: seq<RawItem>)
    ensures |items| == |actions|
  {
    if actions == [] then []
    else Entries(actions[..|actions| - 1]) + [Mapped(ActionEntries(actions[|actions| - 1]))]
  }

  /** A normalised batch handed back as a donor's batch. */
  function AsRaw(b: Batch): RawBatch {
    RawBatch(b.operationId, b.status, Entries(b.actions), b.failure)
  }

  /** What is used of `str.lower`: it is idempotent and keeps texts stripped and non-empty. */
  ghost predicate LowersCleanly(tools: Tools) {
    && (forall s :: tools.lower(tools.lower(s)) == tools.lower(s))
    && (forall s :: Stripped(s) ==> Stripped(tools.lower(s)))
    && tools.lower("unknown") == "unknown"
  }

  /** An action that normalising leaves alone. */
  ghost predicate IsNormalAction(tools: Tools, a: Action) {
    && Stripped(a.proposalId) && a.proposalId != "" && Stripped(a.targetSlot) && Stripped(a.stableKey) && Stripped(a.valueFingerprint)
    && a.action in SUPPORTED_ACTIONS && a.targetKind in SUPPORTED_TARGET_KINDS
    && Stripped(a.reasonCode) && a.reasonCode != "" && Stripped(a.supportVisibility) && a.supportVisibility != ""
    && CleanTexts(a.spanIds) && CleanTexts(a.eventIds)
    && Stripped(a.speaker) && a.speaker != "" && tools.lower(a.speaker) == a.speaker && !IsAssistant(a.speaker)
  }

  ghost predicate CleanTexts(ts: seq<string>) {
    forall i :: 0 <= i < |ts| ==> Stripped(ts[i]) && ts[i] != ""
  }

  lemma {:induction false} TextsAreClean(raw: seq<string>)
    ensures CleanTexts(Texts(raw))
  {
    if raw != [] {
      TextsAreClean(raw[..|raw| - 1]);
    }
  }

  lemma {:induction false} TextsFixed(ts: seq<string>)
    requires CleanTexts(ts)
    ensures Texts(ts) == ts
  {
    hide Strip, Stripped;
    if ts != [] {
      var n := |ts| - 1;
      TextsFixed(ts[..n]);
      StripFixed(ts[n]);
    }
  }

  /** A printable word is stripped. */
  lemma PrintableIsStripped(w: string)
    requires forall k :: 0 <= k < |w| ==> '!' <= w[k] <= '~'
    ensures Stripped(w)
  {
    if w != "" {
      SpaceFacts(w[0]);
      SpaceFacts(w[|w| - 1]);
    }
  }

  lemma StripIsStripped(s: string)
    ensures Stripped(Strip(s))
  {
  }

  lemma DefaultsAreStripped()
    ensures Stripped("unknown") && Stripped("inspect_only") && Stripped("HINDSIGHT_PROPOSAL")
  {
    hide Stripped, IsSpace;
    PrintableIsStripped("unknown");
    PrintableIsStripped("inspect_only");
    PrintableIsStripped("HINDSIGHT_PROPOSAL");
  }

  lemma HashedIsStripped(digest: HexDigest)
    ensures Stripped("hprop_" + digest)
  {
    hide Strip, IsSpace;
    DigestIsWord("hprop_", digest);
    StripIsStripped("hprop_" + digest);
  }

  lemma NormalizeActionIsNormal(tools: Tools, operationId: string, index: nat, a: RawAction)
    requires LowersCleanly(tools) && !IsAssistant(Speaker(tools, a))
    ensures IsNormalAction(tools, NormalizeAction(tools, operationId, index, a))
  {
    hide Strip, Stripped, CleanTexts, Texts, IsSpace;
    StripIsStripped(a.proposalId);
    StripIsStripped(a.targetSlot);
    StripIsStripped(a.stableKey);
    StripIsStripped(FirstOf(a.valueFingerprint, a.normalizedValueHash));
    StripIsStripped(a.reasonCode);
    StripIsStripped(a.supportVisibility);
    StripIsStripped(FirstOf(a.assertionSpeaker, a.sourceRole));
    DefaultsAreStripped();
    TextsAreClean(a.spanIds);
    TextsAreClean(a.eventIds);
    var seed := Seed(operationId, index, Strip(a.action), Strip(a.targetKind), a.targetSlot,
                     FirstOf(a.valueFingerprint, a.normalizedValueHash), Texts(a.spanIds));
    HashedIsStripped(tools.hash(seed));
    assert "failed_batch" == SUPPORTED_ACTIONS[9] && "support_context" == SUPPORTED_TARGET_KINDS[6];
  }

  lemma NamesAreStripped(s: string)
    requires s in SUPPORTED_ACTIONS || s in SUPPORTED_TARGET_KINDS
    ensures Strip(s) == s
  {
    hide Strip, Stripped, IsSpace;
    NamesArePrintable(s);
    PrintableIsStripped(s);
    StripFixed(s);
  }

  lemma NamesArePrintable(s: string)
    requires s in SUPPORTED_ACTIONS || s in SUPPORTED_TARGET_KINDS
    ensures forall k :: 0 <= k < |s| ==> '!' <= s[k] <= '~'
  {
  }

  lemma NormalActionFixed(tools: Tools, operationId: string, index: nat, a: Action)
    requires IsNormalAction(tools, a)
    ensures NormalizeAction(tools, operationId, index, ActionEntries(a)) == a
    ensures IsKept(tools, Mapped(ActionEntries(a))) && IsSupported(ActionEntries(a)) && Texts(a.spanIds) == a.spanIds
  {
    hide Strip, Stripped, CleanTexts, Texts, IsSpace;
    StripFixed(a.proposalId);
    StripFixed(a.targetSlot);
    StripFixed(a.stableKey);
    StripFixed(a.valueFingerprint);
    StripFixed(a.reasonCode);
    StripFixed(a.supportVisibility);
    StripFixed(a.speaker);
    StripOfEmpty();
    NamesAreStripped(a.action);
    NamesAreStripped(a.targetKind);
    TextsFixed(a.spanIds);
    TextsFixed(a.eventIds);
  }

  lemma StripOfEmpty()
    ensures Strip("") == ""
  {
  }

  ghost predicate AllNormal(tools: Tools, actions: seq<Action>) {
    forall i :: 0 <= i < |actions| ==> IsNormalAction(tools, actions[i])
  }

  lemma {:induction false} ActionsAreNormal(tools: Tools, operationId: string, items: seq<RawItem>)
    requires LowersCleanly(tools)
    ensures AllNormal(tools, ActionsOf(tools, operationId, items))
  {
    hide IsNormalAction, NormalizeAction, LowersCleanly, Speaker, IsAssistant;
    if items != [] {
      var n := |items| - 1;
      ActionsAreNormal(tools, operationId, items[..n]);
      if IsKept(tools, items[n]) {
        NormalizeActionIsNormal(tools, operationId, n, items[n].entries);
      }
    }
  }

  /** The number of normal actions without a source. */
  function CountSourceless(actions: seq<Action>): nat {
    if actions == [] then 0
    else CountSourceless(actions[..|actions| - 1]) + if actions[|actions| - 1].spanIds == [] then 1 else 0
  }

  lemma {:induction false} NormalActionsFixed(tools: Tools, operationId: string, actions: seq<Action>)
    requires AllNormal(tools, actions)
    ensures ActionsOf(tools, operationId, Entries(actions)) == actions
    ensures CountDropped(tools, Entries(actions)) == 0 && CountUnsupported(tools, Entries(actions)) == 0
    ensures CountMissing(tools, Entries(actions)) == CountSourceless(actions)
  {
    hide IsNormalAction, NormalizeAction, Texts, Speaker, IsAssistant, IsSupported;
    if actions != [] {
      var n := |actions| - 1;
      NormalActionsFixed(tools, operationId, actions[..n]);
      NormalActionFixed(tools, operationId, n, actions[n]);
      var items := Entries(actions);
      assert items[..n] == Entries(actions[..n]);
      assert actions[..n] + [actions[n]] == actions;
    }
  }

  lemma SpansOfAction(tools: Tools, operationId: string, index: nat, a: RawAction)
    ensures NormalizeAction(tools, operationId, index, a).spanIds == Texts(a.spanIds)
  {
  }

  lemma {:induction false} SourcelessIsMissing(tools: Tools, operationId: string, items: seq<RawItem>)
    ensures CountSourceless(ActionsOf(tools, operationId, items)) == CountMissing(tools, items)
  {
    hide Texts, Speaker, Strip, NormalizeAction, IsAssistant;
    if items != [] {
      var n := |items| - 1;
      SourcelessIsMissing(tools, operationId, items[..n]);
      var before := ActionsOf(tools, operationId, items[..n]);
      var all := ActionsOf(tools, operationId, items);
      if IsKept(tools, items[n]) {
        SpansOfAction(tools, operationId, n, items[n].entries);
        assert all[..|all| - 1] == before;
      } else {
        assert all == before;
      }
    }
  }

  /** Normalising a normalised batch again leaves its actions, status and failure unchanged. */
  lemma Renormalize(tools: Tools, raw: RawBatch)
    requires LowersCleanly(tools)
    ensures var once := NormalBatch(tools, raw);
            var twice := NormalBatch(tools, AsRaw(once));
            twice.actions == once.actions && twice.status == once.status && twice.failure == once.failure
            && twice.missingSources == once.missingSources && twice.operationId == once.operationId
  {
    hide LowersCleanly, ActionsOf, CountDropped, CountMissing, CountUnsupported, Entries, AllNormal, Strip, FailureOf;
    var once := NormalBatch(tools, raw);
    ActionsAreNormal(tools, raw.operationId, raw.items);
    NormalActionsFixed(tools, once.operationId, once.actions);
    SourcelessIsMissing(tools, raw.operationId, raw.items);
    StripIsStripped(raw.operationId);
    StripFixed(once.operationId);
    StatusIsStripped(raw.status, |once.actions|, CountDropped(tools, raw.items), once.missingSources + once.unsupported);
    StripFixed(once.status);
    assert FailureOf(once.failure, 0) == once.failure by { NoDropNoNote(once.failure); }
  }

  lemma NoDropNoNote(failure: Failures)
    ensures FailureOf(failure, 0) == failure
  {
  }

  lemma StatusIsStripped(given: string, kept: nat, dropped: nat, counted: nat)
    ensures var s := StatusOf(given, kept, dropped, counted); Stripped(s) && s != ""
    ensures StatusOf(given, kept, dropped, counted) == "ok" ==> counted == 0
  {
    hide Strip, Stripped, IsSpace;
    StripIsStripped(given);
    PrintableIsStripped("degraded");
    PrintableIsStripped("ok");
    PrintableIsStripped("empty");
  }

  /** Every mapped action is either kept or dropped for its speaker. */
  lemma {:induction false} KeptPlusDropped(tools: Tools, operationId: string, items: seq<RawItem>)
    requires forall i :: 0 <= i < |items| ==> items[i].Mapped?
    ensures |ActionsOf(tools, operationId, items)| + CountDropped(tools, items) == |items|
  {
    hide NormalizeAction, Speaker, IsAssistant;
    if items != [] {
      KeptPlusDropped(tools, operationId, items[..|items| - 1]);
    }
  }
}
