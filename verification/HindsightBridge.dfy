/** From a recall answer to a proposal batch whose every action has verified sources, from
    brainstack/hindsight_public_api_bridge.py. */
module HindsightBridge {
  import opened Sequences
  import opened Text
  import opened HindsightAdapter

  /** A source span of the batch, under the two names of each of its ids. */
  datatype Span = Span(sourceSpanId: string, spanId: string, sourceEventId: string, eventId: string)

  /** A recalled result with the metadata entries that are read. */
  datatype Recalled = Recalled(
    id: string, text: string, spanIds: seq<string>, spanId: string, eventIds: seq<string>,
    proposalId: string, action: string, targetKind: string, targetSlot: string, stableKey: string,
    valueFingerprint: string, confidence: real, reasonCode: string,
    assertionSpeaker: string, sourceRole: string, speaker: string, supportVisibility: string)

  /** The digests for ids and fingerprints, and the reference built from a result. */
  datatype Makers = Makers(proposalId: (Recalled, seq<string>) -> HexDigest, fingerprint: Recalled -> string, ref: Recalled -> MemoryRef)

  function SpanId(span: Span): string {
    Strip(FirstOf(span.sourceSpanId, span.spanId))
  }

  function EventId(span: Span): string {
    Strip(FirstOf(span.sourceEventId, span.eventId))
  }

  function KnownSpans(spans: seq<Span>): set<string> {
    set i | 0 <= i < |spans| && SpanId(spans[i]) != "" :: SpanId(spans[i])
  }

  /** The event of each span; the last span with an id decides. */
  function KnownEvents(spans: seq<Span>): map<string, string> {
    if spans == [] then map[]
    else
      var span := spans[|spans| - 1];
      var before := KnownEvents(spans[..|spans| - 1]);
      if SpanId(span) != "" && EventId(span) != "" then before[SpanId(span) := EventId(span)] else before
  }

  function ListedSpans(r: Recalled): seq<string> {
    r.spanIds + if Strip(r.spanId) != "" then [r.spanId] else []
  }

  predicate Lists(raw: seq<string>, id: string) {
    exists i :: 0 <= i < |raw| && Strip(raw[i]) == id
  }

  /** The result names the span and the batch knows it. */
  predicate VerifiedSpan(spans: seq<Span>, r: Recalled, id: string) {
    id != "" && id in KnownSpans(spans) && Lists(ListedSpans(r), id)
  }

  predicate HasEvent(known: map<string, string>, spanId: string, event: string) {
    spanId in known && known[spanId] == event
  }

  /** The event of a verified span, or an event that the result names and some span of the batch has. */
  ghost predicate VerifiedEvent(spans: seq<Span>, r: Recalled, event: string) {
    event != ""
    && ((exists id :: VerifiedSpan(spans, r, id) && HasEvent(KnownEvents(spans), id, event))
        || (Lists(r.eventIds, event) && event in KnownEvents(spans).Values))
  }

  lemma {:induction false} KnownEventsClean(spans: seq<Span>)
    ensures forall id :: id in KnownEvents(spans) ==>
              id != "" && KnownEvents(spans)[id] != "" && Strip(KnownEvents(spans)[id]) == KnownEvents(spans)[id] && id in KnownSpans(spans)
  {
    hide Strip, KnownSpans, SpanId, EventId;
    if spans != [] {
      var n := |spans| - 1;
      KnownEventsClean(spans[..n]);
      KnownSpansSnoc(spans[..n], spans[n]);
      assert spans[..n] + [spans[n]] == spans;
      EventIdFixed(spans[n]);
    }
  }

  /** The span has that id, under the first of its two names that is there. */
  predicate NamesSpan(span: Span, id: string) {
    id != "" && id == Strip(if span.sourceSpanId != "" then span.sourceSpanId else span.spanId)
  }

  /** The event of a span, under the first of its two names that is there. */
  function EventNamed(span: Span): string {
    Strip(if span.sourceEventId != "" then span.sourceEventId else span.eventId)
  }

  predicate Tells(span: Span, id: string) {
    NamesSpan(span, id) && EventNamed(span) != ""
  }

  /** The last span that has that id and an event. */
  ghost predicate LastTells(spans: seq<Span>, id: string, i: int) {
    0 <= i < |spans| && Tells(spans[i], id) && forall j :: i < j < |spans| ==> !Tells(spans[j], id)
  }

  /** The event known for the span is that of the last of its spans that has one. */
  ghost predicate EventKnown(spans: seq<Span>, id: string) {
    && (id in KnownEvents(spans) <==> exists i :: LastTells(spans, id, i))
    && forall i :: LastTells(spans, id, i) ==> id in KnownEvents(spans) && KnownEvents(spans)[id] == EventNamed(spans[i])
  }

  /** What the batch knows: each span that it names, and the events of those that have one. */
  lemma {:induction false} KnownExactly(spans: seq<Span>, id: string)
    ensures id in KnownSpans(spans) <==> exists i :: 0 <= i < |spans| && NamesSpan(spans[i], id)
    ensures EventKnown(spans, id)
  {
    NamedSpans(spans, id);
    hide KnownSpans, NamesSpan, EventKnown;
    if spans == [] {
      NoEventKnown(id);
    } else {
      var n := |spans| - 1;
      KnownExactly(spans[..n], id);
      EventKnownSnoc(spans[..n], spans[n], id);
      assert spans[..n] + [spans[n]] == spans;
    }
  }

  lemma NoEventKnown(id: string)
    ensures EventKnown([], id)
  {
  }

  lemma EventKnownSnoc(spans: seq<Span>, span: Span, id: string)
    requires EventKnown(spans, id)
    ensures EventKnown(spans + [span], id)
  {
    var all := spans + [span];
    KnownSnoc(spans, span, id);
    LastTellsSnoc(spans, span, id);
    forall i | LastTells(all, id, i)
      ensures id in KnownEvents(all) && 0 <= i < |all| && KnownEvents(all)[id] == EventNamed(all[i])
    {
      LastTellsIn(all, id, i);
      assert i < |spans| ==> all[i] == spans[i];
    }
    hide Tells, KnownEvents, EventNamed;
    if Tells(span, id) {
      assert LastTells(all, id, |spans|);
    } else if i :| LastTells(spans, id, i) {
      assert LastTells(all, id, i);
    }
  }

  lemma LastTellsIn(spans: seq<Span>, id: string, i: int)
    requires LastTells(spans, id, i)
    ensures 0 <= i < |spans|
  {
  }

  lemma KnownSnoc(spans: seq<Span>, span: Span, id: string)
    ensures var after := KnownEvents(spans + [span]);
            if Tells(span, id) then id in after && after[id] == EventNamed(span)
            else (id in after <==> id in KnownEvents(spans)) && (id in after ==> after[id] == KnownEvents(spans)[id])
  {
    hide Strip;
    assert (spans + [span])[..|spans|] == spans;
  }

  lemma NamedSpans(spans: seq<Span>, id: string)
    ensures id in KnownSpans(spans) <==> exists i :: 0 <= i < |spans| && NamesSpan(spans[i], id)
  {
    hide Strip;
  }

  lemma LastTellsSnoc(spans: seq<Span>, span: Span, id: string)
    ensures forall i :: LastTells(spans + [span], id, i) <==> if Tells(span, id) then i == |spans| else LastTells(spans, id, i)
  {
    hide Tells;
    var all := spans + [span];
    assert all[|spans|] == span && forall i :: 0 <= i < |spans| ==> all[i] == spans[i];
  }

  /** A verified span is one that the result names, in its list or on its own, and that the batch knows. */
  lemma VerifiedExactly(spans: seq<Span>, r: Recalled, id: string)
    ensures VerifiedSpan(spans, r, id) <==>
            && id != "" && id in KnownSpans(spans)
            && ((exists i :: 0 <= i < |r.spanIds| && Strip(r.spanIds[i]) == id) || Strip(r.spanId) == id)
  {
    hide Strip, KnownSpans;
    var raw := ListedSpans(r);
    if i :| 0 <= i < |r.spanIds| && Strip(r.spanIds[i]) == id {
      assert raw[i] == r.spanIds[i];
    }
    if id != "" && Strip(r.spanId) == id {
      assert raw[|r.spanIds|] == r.spanId;
    }
  }

  lemma EventIdFixed(span: Span)
    ensures Strip(EventId(span)) == EventId(span)
  {
    hide Strip, IsSpace;
    StripIsStripped(FirstOf(span.sourceEventId, span.eventId));
    StripFixed(EventId(span));
  }

  /** The first loop: what the batch knows. */
  method ReadSpans(spans: seq<Span>) returns (knownSpans: set<string>, knownEvents: map<string, string>)
    ensures knownSpans == KnownSpans(spans) && knownEvents == KnownEvents(spans)
  {
    hide SpanId, EventId;
    knownSpans, knownEvents := {}, map[];
    for i := 0 to |spans|
      invariant knownSpans == KnownSpans(spans[..i])
      invariant knownEvents == KnownEvents(spans[..i])
    {
      assert spans[..i + 1][..i] == spans[..i];
      KnownSpansSnoc(spans[..i], spans[i]);
      assert spans[..i + 1] == spans[..i] + [spans[i]];
      var spanId, eventId := SpanId(spans[i]), EventId(spans[i]);
      if spanId != "" {
        knownSpans := knownSpans + {spanId};
        if eventId != "" {
          knownEvents := knownEvents[spanId := eventId];
        }
      }
    }
    assert spans[..|spans|] == spans;
  }

  lemma KnownSpansSnoc(spans: seq<Span>, span: Span)
    ensures KnownSpans(spans + [span]) == KnownSpans(spans) + if SpanId(span) != "" then {SpanId(span)} else {}
  {
    hide SpanId;
    var all := spans + [span];
    assert all[|spans|] == span && forall i :: 0 <= i < |spans| ==> all[i] == spans[i];
    assert forall id :: id in KnownSpans(spans) ==> id in KnownSpans(all);
  }

  // ----- the order of the ids -----

  /** The ids stand in the order in which the names first show them. */
  ghost predicate ListedInOrder(names: seq<string>, ids: seq<string>) {
    && (forall a :: 0 <= a < |ids| ==> ids[a] in names)
    && (forall a, b, k :: 0 <= a < b < |ids| && 0 <= k < |names| && names[k] == ids[b] ==> ids[a] in names[..k])
  }

  ghost function StripAll(raw: seq<string>): (names: seq<string>)
    ensures |names| == |raw|
  {
    seq(|raw|, i requires 0 <= i < |raw| => Strip(raw[i]))
  }

  ghost function EventsOf(known: map<string, string>, spanIds: seq<string>): (names: seq<string>)
    ensures |names| == |spanIds|
  {
    seq(|spanIds|, i requires 0 <= i < |spanIds| => if spanIds[i] in known then known[spanIds[i]] else "")
  }

  lemma ListedStep(names: seq<string>, ids: seq<string>, x: string, ids': seq<string>)
    requires ListedInOrder(names, ids)
    requires ids' == ids || (ids' == ids + [x] && x !in names)
    ensures ListedInOrder(names + [x], ids')
  {
    var all := names + [x];
    assert all[|names|] == x && forall k :: 0 <= k < |names| ==> all[k] == names[k];
    forall a | 0 <= a < |ids'| ensures ids'[a] in all {
      assert a < |ids| ==> ids'[a] == ids[a] && ids[a] in names;
    }
    forall a, b, k | 0 <= a < b < |ids'| && 0 <= k < |all| && all[k] == ids'[b] ensures ids'[a] in all[..k] {
      assert ids'[a] == ids[a] && ids[a] in names;
      assert k < |names| ==> all[..k] == names[..k];
      assert k == |names| ==> all[..k] == names;
    }
  }

  /** Spans in the order the result lists them; then their events, and then the other events it lists. */
  ghost predicate SourcesInOrder(spans: seq<Span>, r: Recalled, spanIds: seq<string>, eventIds: seq<string>) {
    && ListedInOrder(StripAll(ListedSpans(r)), spanIds)
    && ListedInOrder(EventsOf(KnownEvents(spans), spanIds) + StripAll(r.eventIds), eventIds)
  }

  /** The second and third loops: the verified spans and events of one result, each exactly once. */
  method VerifiedSourceRefs(r: Recalled, spans: seq<Span>) returns (spanIds: seq<string>, eventIds: seq<string>)
    ensures CarriesSources(spans, r, spanIds, eventIds)
  {
    hide Strip, KnownSpans, KnownEvents, ListedSpans, Lists, ListedInOrder, StripAll, EventsOf;
    var knownSpans, knownEvents := ReadSpans(spans);
    KnownEventsClean(spans);
    spanIds, eventIds := CollectSpans(ListedSpans(r), knownSpans, knownEvents);
    ghost var early := eventIds;
    EventsKnown(knownEvents, spanIds, early);
    eventIds := CollectEvents(r.eventIds, knownEvents.Values, eventIds, EventsOf(knownEvents, spanIds));
    forall event ensures event in eventIds <==> VerifiedEvent(spans, r, event) {
      assert event in early ==> event != "";
    }
  }

  method CollectSpans(raw: seq<string>, knownSpans: set<string>, knownEvents: map<string, string>)
    returns (spanIds: seq<string>, eventIds: seq<string>)
    requires forall id :: id in knownEvents ==> knownEvents[id] != "" && Strip(knownEvents[id]) == knownEvents[id]
    ensures NoRepeats(spanIds) && forall id :: id in spanIds <==> id != "" && id in knownSpans && Lists(raw, id)
    ensures NoRepeats(eventIds)
    ensures forall event :: event in eventIds <==> exists id :: id in spanIds && HasEvent(knownEvents, id, event)
    ensures ListedInOrder(StripAll(raw), spanIds) && ListedInOrder(EventsOf(knownEvents, spanIds), eventIds)
  {
    hide Strip, ListedInOrder, EventsOf;
    spanIds, eventIds := [], [];
    NothingListed();
    assert StripAll(raw[..0]) == [];
    for i := 0 to |raw|
      invariant ListedInOrder(StripAll(raw[..i]), spanIds) && ListedInOrder(EventsOf(knownEvents, spanIds), eventIds)
      invariant NoRepeats(spanIds)
      invariant forall id :: id in spanIds <==> id != "" && id in knownSpans && exists j :: 0 <= j < i && Strip(raw[j]) == id
      invariant NoRepeats(eventIds)
      invariant forall event :: event in eventIds <==> exists id :: id in spanIds && HasEvent(knownEvents, id, event)
    {
      var spanId := Strip(raw[i]);
      ghost var spanIds0, eventIds0 := spanIds, eventIds;
      StripAllSnoc(raw, i);
      if spanId != "" && spanId in knownSpans && spanId !in spanIds {
        spanIds := spanIds + [spanId];
        var eventId := if spanId in knownEvents then Strip(knownEvents[spanId]) else "";
        if eventId != "" && eventId !in eventIds {
          eventIds := eventIds + [eventId];
        }
        EventsOfSnoc(knownEvents, spanIds0, spanId);
        EventsKnown(knownEvents, spanIds0, eventIds0);
        ListedStep(EventsOf(knownEvents, spanIds0), eventIds0, eventId, eventIds);
        forall event ensures event in eventIds <==> exists id :: id in spanIds && HasEvent(knownEvents, id, event) {
          OneMoreSpanEvents(spanIds0, spanId, knownEvents, event);
        }
      }
      ListedStep(StripAll(raw[..i]), spanIds0, spanId, spanIds);
    }
    assert raw[..|raw|] == raw;
  }

  lemma NothingListed()
    ensures ListedInOrder([], []) && forall known :: EventsOf(known, []) == []
  {
  }

  lemma StripAllSnoc(raw: seq<string>, i: nat)
    requires i < |raw|
    ensures StripAll(raw[..i + 1]) == StripAll(raw[..i]) + [Strip(raw[i])]
    ensures forall name :: name in StripAll(raw[..i]) <==> exists j :: 0 <= j < i && Strip(raw[j]) == name
  {
    hide Strip;
    var names := StripAll(raw[..i]);
    assert forall j :: 0 <= j < i ==> names[j] == Strip(raw[j]);
  }

  lemma EventsOfSnoc(known: map<string, string>, spanIds: seq<string>, spanId: string)
    ensures EventsOf(known, spanIds + [spanId]) == EventsOf(known, spanIds) + [if spanId in known then known[spanId] else ""]
  {
  }

  lemma EventsKnown(known: map<string, string>, spanIds: seq<string>, eventIds: seq<string>)
    requires forall event :: event in eventIds <==> exists id :: id in spanIds && HasEvent(known, id, event)
    ensures forall event :: event in EventsOf(known, spanIds) && event != "" ==> event in eventIds
  {
    var names := EventsOf(known, spanIds);
    forall k | 0 <= k < |names| && names[k] != "" ensures names[k] in eventIds {
      assert spanIds[k] in spanIds && HasEvent(known, spanIds[k], names[k]);
    }
  }

  lemma OneMoreSpanEvents(spanIds: seq<string>, spanId: string, knownEvents: map<string, string>, event: string)
    ensures (exists id :: id in spanIds + [spanId] && HasEvent(knownEvents, id, event)) <==>
            (exists id :: id in spanIds && HasEvent(knownEvents, id, event)) || HasEvent(knownEvents, spanId, event)
  {
    hide HasEvent;
    assert forall id :: id in spanIds + [spanId] <==> id in spanIds || id == spanId;
  }

  method CollectEvents(raw: seq<string>, known: set<string>, early: seq<string>, ghost names: seq<string>)
    returns (eventIds: seq<string>)
    requires NoRepeats(early) && ListedInOrder(names, early)
    requires forall name :: name in names && name != "" ==> name in early
    ensures NoRepeats(eventIds)
    ensures forall event :: event in eventIds <==> event in early || (event != "" && event in known && Lists(raw, event))
    ensures ListedInOrder(names + StripAll(raw), eventIds)
  {
    hide Strip, ListedInOrder;
    eventIds := early;
    assert names + StripAll(raw[..0]) == names;
    for i := 0 to |raw|
      invariant ListedInOrder(names + StripAll(raw[..i]), eventIds)
      invariant NoRepeats(eventIds)
      invariant forall event :: event in eventIds <==>
                  event in early || (event != "" && event in known && exists j :: 0 <= j < i && Strip(raw[j]) == event)
    {
      var eventId := Strip(raw[i]);
      ghost var eventIds0 := eventIds;
      if eventId != "" && eventId in known && eventId !in eventIds {
        eventIds := eventIds + [eventId];
      }
      StripAllSnoc(raw, i);
      ListedStep(names + StripAll(raw[..i]), eventIds0, eventId, eventIds);
      assert names + StripAll(raw[..i]) + [eventId] == names + StripAll(raw[..i + 1]);
    }
    assert raw[..|raw|] == raw;
  }

  // ----- the batch -----

  /** The result has a verified span and a verified event. */
  ghost predicate Sourced(spans: seq<Span>, r: Recalled) {
    (exists id :: VerifiedSpan(spans, r, id)) && exists event :: VerifiedEvent(spans, r, event)
  }

  function RecalledSpeaker(r: Recalled): string {
    FirstOf(Strip(FirstOf(r.assertionSpeaker, FirstOf(r.sourceRole, r.speaker))), "unknown")
  }

  predicate ByAssistant(tools: Tools, r: Recalled) {
    IsAssistant(tools.lower(RecalledSpeaker(r)))
  }

  ghost function CountUnsourced(spans: seq<Span>, results: seq<Recalled>): nat {
    if results == [] then 0
    else CountUnsourced(spans, results[..|results| - 1]) + if Sourced(spans, results[|results| - 1]) then 0 else 1
  }

  ghost function CountByAssistant(tools: Tools, spans: seq<Span>, results: seq<Recalled>): nat {
    if results == [] then 0
    else
      var r := results[|results| - 1];
      CountByAssistant(tools, spans, results[..|results| - 1]) + if Sourced(spans, r) && ByAssistant(tools, r) then 1 else 0
  }

  /** The results with verified sources, in order. */
  ghost function SourcedResults(spans: seq<Span>, results: seq<Recalled>): seq<Recalled> {
    if results == [] then []
    else
      var before, r := SourcedResults(spans, results[..|results| - 1]), results[|results| - 1];
      if Sourced(spans, r) then before + [r] else before
  }

  /** The results that no assistant spoke, in order. */
  function NotByAssistant(tools: Tools, results: seq<Recalled>): seq<Recalled> {
    if results == [] then []
    else
      var before, r := NotByAssistant(tools, results[..|results| - 1]), results[|results| - 1];
      if ByAssistant(tools, r) then before else before + [r]
  }

  /** The speaker is the first given of three names. */
  ghost function SpokenBy(r: Recalled): string {
    var name := if r.assertionSpeaker != "" then r.assertionSpeaker else if r.sourceRole != "" then r.sourceRole else r.speaker;
    if Blank(name) then "unknown" else Strip(name)
  }

  ghost function HasSources(spans: seq<Span>): Recalled -> bool {
    (r: Recalled) => Sourced(spans, r)
  }

  ghost function Survives(tools: Tools, spans: seq<Span>): Recalled -> bool {
    (r: Recalled) => Sourced(spans, r) && tools.lower(SpokenBy(r)) !in {"assistant", "quoted_assistant"}
  }

  /** Exactly the results with verified sources that no assistant spoke survive, in order, and the others are counted. */
  lemma {:induction false} SurvivorsExactly(tools: Tools, spans: seq<Span>, results: seq<Recalled>)
    returns (sourced: seq<nat>, at: seq<nat>)
    ensures Picks(results, HasSources(spans), Itself<Recalled>, SourcedResults(spans, results), sourced)
    ensures Picks(results, Survives(tools, spans), Itself<Recalled>, NotByAssistant(tools, SourcedResults(spans, results)), at)
    ensures CountUnsourced(spans, results) == |results| - |sourced|
    ensures CountByAssistant(tools, spans, results) == |sourced| - |at|
  {
    hide Picks, Sourced, ByAssistant, SpokenBy;
    if results == [] {
      sourced, at := [], [];
      PicksNothing<Recalled, Recalled>(HasSources(spans), Itself<Recalled>);
      PicksNothing<Recalled, Recalled>(Survives(tools, spans), Itself<Recalled>);
    } else {
      var n := |results| - 1;
      var front, r := results[..n], results[n];
      var sourced0, at0 := SurvivorsExactly(tools, spans, front);
      var kept := SourcedResults(spans, front);
      PicksSnoc(front, r, HasSources(spans), Itself<Recalled>, kept, sourced0);
      PicksSnoc(front, r, Survives(tools, spans), Itself<Recalled>, NotByAssistant(tools, kept), at0);
      SpeakerExactly(tools, r);
      assert front + [r] == results && Itself(r) == r && (kept + [r])[..|kept|] == kept;
      sourced := if Sourced(spans, r) then sourced0 + [n] else sourced0;
      at := if Sourced(spans, r) && !ByAssistant(tools, r) then at0 + [n] else at0;
    }
  }

  lemma SpeakerExactly(tools: Tools, r: Recalled)
    ensures RecalledSpeaker(r) == SpokenBy(r)
    ensures ByAssistant(tools, r) <==> tools.lower(SpokenBy(r)) in {"assistant", "quoted_assistant"}
  {
    StripBlank(FirstOf(r.assertionSpeaker, FirstOf(r.sourceRole, r.speaker)));
    hide Strip, Blank;
  }

  /** The verified ids of the result, each once and in order. */
  ghost predicate CarriesSources(spans: seq<Span>, r: Recalled, spanIds: seq<string>, eventIds: seq<string>) {
    && NoRepeats(spanIds) && (forall id :: id in spanIds <==> VerifiedSpan(spans, r, id))
    && NoRepeats(eventIds) && (forall event :: event in eventIds <==> VerifiedEvent(spans, r, event))
    && SourcesInOrder(spans, r, spanIds, eventIds)
  }

  function DefaultVisibility(kind: string): string {
    if kind == "support_context" then "support_context" else "inspect_only"
  }

  /** The donor action of a result with verified sources. */
  function ActionFor(makers: Makers, r: Recalled, spanIds: seq<string>, eventIds: seq<string>): RawAction {
    var kind := if Strip(r.targetKind) in SUPPORTED_TARGET_KINDS then Strip(r.targetKind) else "support_context";
    RawAction(
      FirstOf(Strip(r.proposalId), "hpub_" + makers.proposalId(r, spanIds)),
      if Strip(r.action) in SUPPORTED_ACTIONS then Strip(r.action) else "create",
      kind, Strip(r.targetSlot), Strip(FirstOf(r.stableKey, Strip(r.id))),
      FirstOf(Strip(r.valueFingerprint), makers.fingerprint(r)), "", r.confidence,
      FirstOf(Strip(r.reasonCode), "HINDSIGHT_PUBLIC_RECALL_RESULT"), spanIds, eventIds, [makers.ref(r)],
      RecalledSpeaker(r), "",
      FirstOf(Strip(r.supportVisibility), DefaultVisibility(kind)))
  }

  /** Spans and events all come from the batch. */
  ghost predicate Grounded(spans: seq<Span>, spanIds: seq<string>, eventIds: seq<string>) {
    && spanIds != [] && (forall id :: id in spanIds ==> id in KnownSpans(spans))
    && eventIds != [] && (forall event :: event in eventIds ==> event in KnownEvents(spans).Values)
  }

  ghost predicate GroundedItem(spans: seq<Span>, item: RawItem) {
    item.Mapped? && Grounded(spans, item.entries.spanIds, item.entries.eventIds) && IsSupported(item.entries)
    && CleanTexts(item.entries.spanIds) && CleanTexts(item.entries.eventIds)
  }

  ghost predicate GroundedItems(spans: seq<Span>, items: seq<RawItem>) {
    forall i :: 0 <= i < |items| ==> GroundedItem(spans, items[i])
  }

  /** The item is made from this result and its verified ids. */
  ghost predicate MadeFrom(makers: Makers, spans: seq<Span>, r: Recalled, item: RawItem) {
    && GroundedItem(spans, item) && CarriesSources(spans, r, item.entries.spanIds, item.entries.eventIds)
    && item.entries == ActionFor(makers, r, item.entries.spanIds, item.entries.eventIds)
  }

  ghost predicate AllMadeFrom(makers: Makers, spans: seq<Span>, results: seq<Recalled>, items: seq<RawItem>) {
    |items| == |results| && forall i :: 0 <= i < |items| ==> MadeFrom(makers, spans, results[i], items[i])
  }

  /** The loop over the results. */
  method ReadResults(tools: Tools, makers: Makers, results: seq<Recalled>, spans: seq<Span>)
    returns (items: seq<RawItem>, unsourced: nat)
    ensures GroundedItems(spans, items) && AllMadeFrom(makers, spans, SourcedResults(spans, results), items)
    ensures unsourced == CountUnsourced(spans, results) && |items| + unsourced == |results|
    ensures CountDropped(tools, items) == CountByAssistant(tools, spans, results)
  {
    hide Sourced, Grounded, CleanTexts, Strip, ByAssistant, IsDropped, GroundedItem, CarriesSources, MadeFrom, ActionFor;
    items, unsourced := [], 0;
    for i := 0 to |results|
      invariant GroundedItems(spans, items) && AllMadeFrom(makers, spans, SourcedResults(spans, results[..i]), items)
      invariant unsourced == CountUnsourced(spans, results[..i]) && |items| + unsourced == i
      invariant CountDropped(tools, items) == CountByAssistant(tools, spans, results[..i])
    {
      assert results[..i + 1][..i] == results[..i];
      var r := results[i];
      var spanIds, eventIds := VerifiedSourceRefs(r, spans);
      SourcesExact(spans, r, spanIds, eventIds);
      if spanIds == [] || eventIds == [] {
        unsourced := unsourced + 1;
      } else {
        var item := Mapped(ActionFor(makers, r, spanIds, eventIds));
        ItemMadeFrom(tools, makers, spans, r, spanIds, eventIds);
        assert (items + [item])[..|items|] == items;
        items := items + [item];
      }
    }
    assert results[..|results|] == results;
  }

  lemma SourcesExact(spans: seq<Span>, r: Recalled, spanIds: seq<string>, eventIds: seq<string>)
    requires CarriesSources(spans, r, spanIds, eventIds)
    ensures Sourced(spans, r) <==> spanIds != [] && eventIds != []
    ensures spanIds != [] && eventIds != [] ==> Grounded(spans, spanIds, eventIds)
    ensures CleanTexts(spanIds) && CleanTexts(eventIds)
  {
    hide VerifiedSpan, VerifiedEvent, KnownSpans, KnownEvents, Stripped;
    assert spanIds != [] ==> VerifiedSpan(spans, r, spanIds[0]);
    assert eventIds != [] ==> VerifiedEvent(spans, r, eventIds[0]);
    assert forall id :: VerifiedSpan(spans, r, id) ==> spanIds != [];
    assert forall event :: VerifiedEvent(spans, r, event) ==> eventIds != [];
    forall i | 0 <= i < |spanIds| ensures Stripped(spanIds[i]) && spanIds[i] != "" && spanIds[i] in KnownSpans(spans) {
      VerifiedSpanClean(spans, r, spanIds[i]);
    }
    forall i | 0 <= i < |eventIds| ensures Stripped(eventIds[i]) && eventIds[i] != "" && eventIds[i] in KnownEvents(spans).Values {
      VerifiedEventClean(spans, r, eventIds[i]);
    }
  }

  lemma VerifiedSpanClean(spans: seq<Span>, r: Recalled, id: string)
    requires VerifiedSpan(spans, r, id)
    ensures Stripped(id) && id != "" && id in KnownSpans(spans)
  {
    hide Strip, KnownSpans, Stripped;
    var raw := ListedSpans(r);
    var i :| 0 <= i < |raw| && Strip(raw[i]) == id;
    StripIsStripped(raw[i]);
  }

  lemma VerifiedEventClean(spans: seq<Span>, r: Recalled, event: string)
    requires VerifiedEvent(spans, r, event)
    ensures Stripped(event) && event != "" && event in KnownEvents(spans).Values
  {
    hide Strip, KnownSpans, KnownEvents, Stripped, Lists, VerifiedSpan;
    KnownEventsClean(spans);
    StripFixed(event);
  }

  lemma ActionForIsGrounded(tools: Tools, makers: Makers, spans: seq<Span>, r: Recalled, spanIds: seq<string>, eventIds: seq<string>)
    requires Grounded(spans, spanIds, eventIds) && CleanTexts(spanIds) && CleanTexts(eventIds)
    ensures GroundedItem(spans, Mapped(ActionFor(makers, r, spanIds, eventIds)))
    ensures IsDropped(tools, Mapped(ActionFor(makers, r, spanIds, eventIds))) <==> ByAssistant(tools, r)
  {
    hide Strip, Grounded, CleanTexts, IsSpace, IsAssistant, RecalledSpeaker, Speaker;
    assert "create" == SUPPORTED_ACTIONS[0] && "support_context" == SUPPORTED_TARGET_KINDS[6];
    var a := ActionFor(makers, r, spanIds, eventIds);
    assert a.action in SUPPORTED_ACTIONS && a.targetKind in SUPPORTED_TARGET_KINDS;
    NamesAreStripped(a.action);
    NamesAreStripped(a.targetKind);
    SpeakerOfAction(tools, r, a);
    hide ActionFor;
  }

  lemma ItemMadeFrom(tools: Tools, makers: Makers, spans: seq<Span>, r: Recalled, spanIds: seq<string>, eventIds: seq<string>)
    requires CarriesSources(spans, r, spanIds, eventIds)
    requires Grounded(spans, spanIds, eventIds) && CleanTexts(spanIds) && CleanTexts(eventIds)
    ensures MadeFrom(makers, spans, r, Mapped(ActionFor(makers, r, spanIds, eventIds)))
    ensures GroundedItem(spans, Mapped(ActionFor(makers, r, spanIds, eventIds)))
    ensures IsDropped(tools, Mapped(ActionFor(makers, r, spanIds, eventIds))) <==> ByAssistant(tools, r)
  {
    hide Strip, Grounded, CleanTexts, IsDropped, CarriesSources, GroundedItem, ByAssistant, RecalledSpeaker;
    ActionForIsGrounded(tools, makers, spans, r, spanIds, eventIds);
  }

  lemma SpeakerOfAction(tools: Tools, r: Recalled, a: RawAction)
    requires a.assertionSpeaker == RecalledSpeaker(r)
    ensures Speaker(tools, a) == tools.lower(RecalledSpeaker(r))
  {
    hide Strip, IsSpace, Stripped;
    StripIsStripped(FirstOf(r.assertionSpeaker, FirstOf(r.sourceRole, r.speaker)));
    PrintableIsStripped("unknown");
    StripFixed(RecalledSpeaker(r));
  }

  function UnsourcedFailure(unsourced: nat): Failures {
    if unsourced == 0 then map[]
    else map["reason_code" := TextNote("HINDSIGHT_UNVERIFIED_RECALL_DROPPED"), "dropped_unsourced_candidates" := CountNote(unsourced)]
  }

  /** What the surviving action of a result shows of it: exactly its verified ids, its reference and its own words. */
  ghost predicate ActionOf(tools: Tools, makers: Makers, spans: seq<Span>, r: Recalled, a: Action) {
    && CarriesSources(spans, r, a.spanIds, a.eventIds)
    && Grounded(spans, a.spanIds, a.eventIds)
    && a.refs == [makers.ref(r)] && a.confidence == r.confidence
    && a.targetSlot == Strip(r.targetSlot) && a.stableKey == Strip(FirstOf(r.stableKey, Strip(r.id)))
    && a.action == (if Strip(r.action) in SUPPORTED_ACTIONS then Strip(r.action) else "create")
    && a.targetKind == (if Strip(r.targetKind) in SUPPORTED_TARGET_KINDS then Strip(r.targetKind) else "support_context")
    && a.speaker == FirstOf(tools.lower(RecalledSpeaker(r)), "unknown") && !IsAssistant(a.speaker)
    && a.proposalId == FirstOf(Strip(r.proposalId), "hpub_" + makers.proposalId(r, a.spanIds))
    && a.valueFingerprint == Strip(FirstOf(Strip(r.valueFingerprint), makers.fingerprint(r)))
    && a.reasonCode == FirstOf(Strip(r.reasonCode), "HINDSIGHT_PUBLIC_RECALL_RESULT")
    && a.supportVisibility == (if Strip(r.supportVisibility) != "" then Strip(r.supportVisibility)
                               else if a.targetKind == "support_context" then "support_context" else "inspect_only")
  }

  /** The failure says how many results were lost for either cause, and names the missing sources first. */
  ghost predicate FailureTells(failure: Failures, unsourced: nat, spoken: nat) {
    && ("reason_code" in failure <==> unsourced > 0 || spoken > 0)
    && (unsourced > 0 ==> failure["reason_code"] == TextNote("HINDSIGHT_UNVERIFIED_RECALL_DROPPED"))
    && (unsourced == 0 < spoken ==> failure["reason_code"] == TextNote("HINDSIGHT_ASSISTANT_AUTHORED_ACTION_DROPPED"))
    && ("dropped_unsourced_candidates" in failure <==> unsourced > 0)
    && (unsourced > 0 ==> failure["dropped_unsourced_candidates"] == CountNote(unsourced))
    && ("dropped_assistant_authored_actions" in failure <==> spoken > 0)
    && (spoken > 0 ==> failure["dropped_assistant_authored_actions"] == CountNote(spoken))
    && failure.Keys <= {"reason_code", "dropped_unsourced_candidates", "dropped_assistant_authored_actions"}
  }

  lemma FailureNames(unsourced: nat, spoken: nat)
    ensures FailureTells(FailureOf(UnsourcedFailure(unsourced), spoken), unsourced, spoken)
  {
    assert |"reason_code"| == 11 && |"dropped_unsourced_candidates"| == 28 && |"dropped_assistant_authored_actions"| == 34;
  }

  ghost predicate ActionsFollow(tools: Tools, makers: Makers, spans: seq<Span>, results: seq<Recalled>, actions: seq<Action>) {
    |actions| == |results| && forall i :: 0 <= i < |actions| ==> ActionOf(tools, makers, spans, results[i], actions[i])
  }

  /** The surviving actions are those of the sourced results that no assistant spoke, in order, each with exactly
      its own result's verified sources; every other result had no verified source or was spoken by an assistant. */
  method ProposalBatchFromHindsightRecall(tools: Tools, makers: Makers, results: seq<Recalled>, spans: seq<Span>, operationId: string)
    returns (b: Batch)
    ensures ActionsFollow(tools, makers, spans, NotByAssistant(tools, SourcedResults(spans, results)), b.actions)
    ensures |b.actions| + CountUnsourced(spans, results) + CountByAssistant(tools, spans, results) == |results|
    ensures b.operationId == Strip(operationId) && b.missingSources == 0 && b.unsupported == 0
    ensures b.status == if |b.actions| < |results| then "degraded" else if results == [] then "empty" else "ok"
    ensures FailureTells(b.failure, CountUnsourced(spans, results), CountByAssistant(tools, spans, results))
  {
    hide CountUnsourced, CountByAssistant, Grounded, IsAssistant, Strip, Speaker, GroundedItems, AllMadeFrom,
         SourcedResults, NotByAssistant, ActionsFollow, ActionsOf, FailureTells;
    var items, unsourced := ReadResults(tools, makers, results, spans);
    var status := if unsourced > 0 then "degraded" else if items != [] then "ok" else "empty";
    b := NormalizeProposalActionBatch(tools, RawBatch(Strip(operationId), status, items, UnsourcedFailure(unsourced)));
    ResultsBecomeActions(tools, makers, spans, Strip(operationId), SourcedResults(spans, results), items);
    KeptCounts(tools, spans, Strip(operationId), items);
    StripIsStripped(operationId);
    StripFixed(Strip(operationId));
    PlainStatuses();
    FailureNames(unsourced, CountByAssistant(tools, spans, results));
  }

  lemma PlainStatuses()
    ensures Strip("degraded") == "degraded" && Strip("ok") == "ok" && Strip("empty") == "empty"
  {
    hide Strip, IsSpace;
    PrintableIsStripped("degraded");
    PrintableIsStripped("ok");
    PrintableIsStripped("empty");
    StripFixed("degraded");
    StripFixed("ok");
    StripFixed("empty");
  }

  lemma KeptCounts(tools: Tools, spans: seq<Span>, operationId: string, items: seq<RawItem>)
    requires GroundedItems(spans, items)
    ensures |ActionsOf(tools, operationId, items)| + CountDropped(tools, items) == |items|
    ensures CountMissing(tools, items) == 0 && CountUnsupported(tools, items) == 0
  {
    assert forall i :: 0 <= i < |items| ==> GroundedItem(spans, items[i]);
    hide Grounded, CleanTexts, IsSupported, KnownSpans, KnownEvents;
    KeptPlusDropped(tools, operationId, items);
    NothingCounted(tools, spans, items);
  }

  lemma {:induction false} NothingCounted(tools: Tools, spans: seq<Span>, items: seq<RawItem>)
    requires GroundedItems(spans, items)
    ensures CountMissing(tools, items) == 0 && CountUnsupported(tools, items) == 0
  {
    hide CleanTexts, IsSupported, KnownSpans, KnownEvents, Texts, Speaker;
    if items != [] {
      var n := |items| - 1;
      NothingCounted(tools, spans, items[..n]);
      assert GroundedItem(spans, items[n]);
      TextsFixed(items[n].entries.spanIds);
    }
  }

  /** Normalising keeps the action of every result that no assistant spoke, and no other. */
  lemma {:induction false} ResultsBecomeActions(
      tools: Tools, makers: Makers, spans: seq<Span>, operationId: string, results: seq<Recalled>, items: seq<RawItem>)
    requires AllMadeFrom(makers, spans, results, items)
    ensures ActionsFollow(tools, makers, spans, NotByAssistant(tools, results), ActionsOf(tools, operationId, items))
  {
    hide MadeFrom, ActionOf, ByAssistant, IsKept, NormalizeAction;
    if items != [] {
      var n := |items| - 1;
      ResultsBecomeActions(tools, makers, spans, operationId, results[..n], items[..n]);
      assert MadeFrom(makers, spans, results[n], items[n]);
      ResultBecomesAction(tools, makers, spans, operationId, n, results[n], items[n]);
    }
  }

  lemma ResultBecomesAction(
      tools: Tools, makers: Makers, spans: seq<Span>, operationId: string, n: nat, r: Recalled, item: RawItem)
    requires MadeFrom(makers, spans, r, item)
    ensures IsKept(tools, item) <==> !ByAssistant(tools, r)
    ensures IsKept(tools, item) ==> ActionOf(tools, makers, spans, r, NormalizeAction(tools, operationId, n, item.entries))
  {
    hide Strip, Stripped, Grounded, CleanTexts, IsSpace, RecalledSpeaker, Speaker, CarriesSources, Texts;
    SpeakerOfAction(tools, r, item.entries);
    TextsFixed(item.entries.spanIds);
    TextsFixed(item.entries.eventIds);
    StripTwice(r.targetSlot);
    StripTwice(FirstOf(r.stableKey, Strip(r.id)));
    NamesAreStripped(item.entries.action);
    NamesAreStripped(item.entries.targetKind);
    GivenOrDefault(makers, r, item.entries.spanIds, item.entries.targetKind);
  }

  /** The texts that have a default are stripped and not empty. */
  lemma GivenOrDefault(makers: Makers, r: Recalled, spanIds: seq<string>, kind: string)
    ensures var id := FirstOf(Strip(r.proposalId), "hpub_" + makers.proposalId(r, spanIds)); Strip(id) == id != ""
    ensures var reason := FirstOf(Strip(r.reasonCode), "HINDSIGHT_PUBLIC_RECALL_RESULT"); Strip(reason) == reason != ""
    ensures var shown := FirstOf(Strip(r.supportVisibility), DefaultVisibility(kind)); Strip(shown) == shown != ""
  {
    hide Strip, Stripped, IsSpace, FirstOf, DefaultVisibility;
    HashedId(makers.proposalId(r, spanIds));
    StripOfDefault(r.proposalId, "hpub_" + makers.proposalId(r, spanIds));
    PlainReason();
    StripOfDefault(r.reasonCode, "HINDSIGHT_PUBLIC_RECALL_RESULT");
    PlainVisibility(kind);
    StripOfDefault(r.supportVisibility, DefaultVisibility(kind));
  }

  lemma HashedId(digest: HexDigest)
    ensures Stripped("hpub_" + digest)
  {
    hide Strip, IsSpace;
    DigestIsWord("hpub_", digest);
    StripIsStripped("hpub_" + digest);
  }

  lemma PlainReason()
    ensures Stripped("HINDSIGHT_PUBLIC_RECALL_RESULT")
  {
    hide Stripped, IsSpace;
    PrintableIsStripped("HINDSIGHT_PUBLIC_RECALL_RESULT");
  }

  lemma PlainVisibility(kind: string)
    ensures Stripped(DefaultVisibility(kind)) && DefaultVisibility(kind) != ""
  {
    hide Stripped, IsSpace;
    PrintableIsStripped("support_context");
    PrintableIsStripped("inspect_only");
  }

  lemma StripOfDefault(s: string, default: string)
    requires Stripped(default) && default != ""
    ensures Strip(FirstOf(Strip(s), default)) == FirstOf(Strip(s), default) != ""
  {
    hide Strip, Stripped, IsSpace;
    StripIsStripped(s);
    StripFixed(FirstOf(Strip(s), default));
  }

  lemma StripTwice(s: string)
    ensures Strip(Strip(s)) == Strip(s)
  {
    hide Strip, IsSpace;
    StripIsStripped(s);
    StripFixed(Strip(s));
  }
}
