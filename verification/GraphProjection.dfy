/** The rebuildable graph read model of brainstack/graphiti_projection.py: events in, edges, entities and episodes out. */
module GraphProjection {
  import opened Ordering
  import opened Sequences
  import opened Text

  /** The fields of a canonical event that the projection reads. */
  datatype Event = Event(
    eventId: string, transactionTime: string, validTo: string,
    sourceEventId: string, sourceSpanId: string,
    memoryKind: string, graphReady: bool,
    subjectRef: string, stableFactId: string, objectRef: string, valueHash: string, relation: string, targetSlot: string,
    truthEligible: bool, supportVisibility: string, scopeKey: string)

  /** The answer of `classify_projection_semantics`. */
  datatype Semantics = Semantics(answerSafe: bool, prior: bool, conflicted: bool)

  /** What the projection calls: the event validator, the semantics classifier and the digest. */
  datatype Rules = Rules(validate: Event -> seq<string>, classify: Event -> Semantics, hash: seq<string> -> string)

  datatype Edge = Edge(
    edgeId: string, eventId: string, subject: string, relation: string, object_: string,
    sourceEventId: string, sourceSpanId: string, scopeKey: string, validTo: string,
    truthEligible: bool, supportVisibility: string, semantics: Semantics)

  datatype Issue = Issue(eventId: string, issues: seq<string>)

  datatype Bucket = CurrentEdge | PriorEdge | InspectOnlyEdge

  /** What one event turns into. */
  datatype Outcome = Rejected(issue: Issue) | Skipped(eventId: string) | Projected(edge: Edge)

  predicate IsGraphKind(kind: string) {
    kind == "graph_relation" || kind == "graph_state" || kind == "temporal_event"
  }

  function EdgeOf(rules: Rules, e: Event): Edge {
    var id, relation := Strip(e.eventId), FirstOf(Strip(e.relation), Strip(e.targetSlot));
    var subject := FirstOf(Strip(e.subjectRef), rules.hash(["subject", e.stableFactId]));
    var object_ := FirstOf(Strip(e.objectRef), Strip(e.valueHash));
    Edge(rules.hash([id, subject, relation, object_]), id, subject, relation, object_,
         Strip(e.sourceEventId), Strip(e.sourceSpanId), e.scopeKey, Strip(e.validTo),
         e.truthEligible, Strip(e.supportVisibility), rules.classify(e))
  }

  function OutcomeOf(rules: Rules, e: Event): Outcome {
    var id := Strip(e.eventId);
    if rules.validate(e) != [] then Rejected(Issue(id, rules.validate(e)))
    else if !IsGraphKind(Strip(e.memoryKind)) || !e.graphReady then Skipped(id)
    else if Strip(e.sourceEventId) == "" || Strip(e.sourceSpanId) == "" then Rejected(Issue(id, ["missing_source_projection"]))
    else if EdgeOf(rules, e).relation == "" || EdgeOf(rules, e).object_ == "" then Rejected(Issue(id, ["missing_graph_claim_parts"]))
    else Projected(EdgeOf(rules, e))
  }

  function BucketOf(edge: Edge): Bucket {
    if edge.semantics.answerSafe then CurrentEdge else if edge.semantics.prior then PriorEdge else InspectOnlyEdge
  }

  // ----- the lists, event by event -----

  function IssuesOf(rules: Rules, events: seq<Event>): seq<Issue> {
    if events == [] then []
    else
      var out := OutcomeOf(rules, events[|events| - 1]);
      IssuesOf(rules, events[..|events| - 1]) + if out.Rejected? then [out.issue] else []
  }

  function SkippedOf(rules: Rules, events: seq<Event>): seq<string> {
    if events == [] then []
    else
      var out := OutcomeOf(rules, events[|events| - 1]);
      SkippedOf(rules, events[..|events| - 1]) + if out.Skipped? then [out.eventId] else []
  }

  function EdgesOf(rules: Rules, events: seq<Event>): seq<Edge> {
    if events == [] then []
    else
      var out := OutcomeOf(rules, events[|events| - 1]);
      EdgesOf(rules, events[..|events| - 1]) + if out.Projected? then [out.edge] else []
  }

  function InBucket(edges: seq<Edge>, bucket: Bucket): seq<Edge> {
    if edges == [] then []
    else
      var edge := edges[|edges| - 1];
      InBucket(edges[..|edges| - 1], bucket) + if BucketOf(edge) == bucket then [edge] else []
  }

  // ----- entities -----

  datatype Entity = Entity(ref: string, eventIds: seq<string>, spanIds: seq<string>)

  function InsertUnique(xs: seq<string>, x: string): seq<string> {
    if xs == [] then [x]
    else
      var n := |xs| - 1;
      if xs[n] == x then xs
      else if StrLe(xs[n], x) then xs + [x]
      else InsertUnique(xs[..n], x) + [xs[n]]
  }

  /** `sorted(set(xs))`. */
  function SortUnique(xs: seq<string>): seq<string> {
    if xs == [] then [] else InsertUnique(SortUnique(xs[..|xs| - 1]), xs[|xs| - 1])
  }

  function MergeEntity(existing: Entity, incoming: Entity): Entity {
    existing.(eventIds := SortUnique(existing.eventIds + incoming.eventIds),
              spanIds := SortUnique(existing.spanIds + incoming.spanIds))
  }

  function AddEndpoint(entities: map<string, Entity>, ref: string, edge: Edge): map<string, Entity> {
    var incoming := Entity(ref, [edge.sourceEventId], [edge.sourceSpanId]);
    entities[ref := if ref in entities then MergeEntity(entities[ref], incoming) else incoming]
  }

  function Elements(xs: seq<string>): set<string> {
    set x | x in xs
  }

  ghost predicate StrictlySorted(xs: seq<string>) {
    forall i, j :: 0 <= i < j < |xs| ==> StrLe(xs[i], xs[j]) && xs[i] != xs[j]
  }

  lemma {:induction false} InsertUniqueExact(xs: seq<string>, x: string)
    requires StrictlySorted(xs)
    ensures StrictlySorted(InsertUnique(xs, x))
    ensures Elements(InsertUnique(xs, x)) == Elements(xs) + {x}
  {
    if xs != [] {
      var n := |xs| - 1;
      StrLeTotal(xs[n], x);
      assert Elements(xs) == Elements(xs[..n]) + {xs[n]};
      if xs[n] == x {
      } else if StrLe(xs[n], x) {
        AppendGreater(xs, x);
      } else {
        InsertUniqueExact(xs[..n], x);
        var r := InsertUnique(xs[..n], x);
        forall i | 0 <= i < |r| ensures StrLe(r[i], xs[n]) && r[i] != xs[n] {
          assert r[i] in Elements(r);
        }
        assert Elements(r + [xs[n]]) == Elements(r) + {xs[n]};
      }
    }
  }

  lemma AppendGreater(xs: seq<string>, x: string)
    requires StrictlySorted(xs) && xs != [] && StrLe(xs[|xs| - 1], x) && xs[|xs| - 1] != x
    ensures StrictlySorted(xs + [x]) && Elements(xs + [x]) == Elements(xs) + {x}
  {
    var n := |xs| - 1;
    forall i | 0 <= i < n ensures StrLe(xs[i], x) && xs[i] != x {
      StrLeTransitive(xs[i], xs[n], x);
      StrLeTotal(xs[i], xs[n]);
    }
  }

  lemma {:induction false} SortUniqueExact(xs: seq<string>)
    ensures StrictlySorted(SortUnique(xs)) && Elements(SortUnique(xs)) == Elements(xs)
  {
    hide StrLe, InsertUnique;
    if xs != [] {
      var n := |xs| - 1;
      SortUniqueExact(xs[..n]);
      InsertUniqueExact(SortUnique(xs[..n]), xs[n]);
      assert Elements(xs) == Elements(xs[..n]) + {xs[n]};
    }
  }

  predicate Touches(edge: Edge, ref: string) {
    edge.subject == ref || edge.object_ == ref
  }

  function Endpoints(edges: seq<Edge>): set<string> {
    (set k | 0 <= k < |edges| :: edges[k].subject) + (set k | 0 <= k < |edges| :: edges[k].object_)
  }

  /** The source events, and the source spans, of the edges that touch an entity. */
  function SourcesOf(edges: seq<Edge>, ref: string): set<string> {
    set k | 0 <= k < |edges| && Touches(edges[k], ref) :: edges[k].sourceEventId
  }

  function SpansOf(edges: seq<Edge>, ref: string): set<string> {
    set k | 0 <= k < |edges| && Touches(edges[k], ref) :: edges[k].sourceSpanId
  }

  lemma OneMoreEdge(edges: seq<Edge>, edge: Edge)
    ensures Endpoints(edges + [edge]) == Endpoints(edges) + {edge.subject, edge.object_}
    ensures forall ref :: SourcesOf(edges + [edge], ref) == SourcesOf(edges, ref) + if Touches(edge, ref) then {edge.sourceEventId} else {}
    ensures forall ref :: SpansOf(edges + [edge], ref) == SpansOf(edges, ref) + if Touches(edge, ref) then {edge.sourceSpanId} else {}
  {
    hide Endpoints, SourcesOf, SpansOf, Touches;
    OneMoreEndpoints(edges, edge);
    forall ref
      ensures SourcesOf(edges + [edge], ref) == SourcesOf(edges, ref) + if Touches(edge, ref) then {edge.sourceEventId} else {}
      ensures SpansOf(edges + [edge], ref) == SpansOf(edges, ref) + if Touches(edge, ref) then {edge.sourceSpanId} else {}
    {
      OneMoreSource(edges, edge, ref);
      OneMoreSpan(edges, edge, ref);
    }
  }

  lemma OneMoreEndpoints(edges: seq<Edge>, edge: Edge)
    ensures Endpoints(edges + [edge]) == Endpoints(edges) + {edge.subject, edge.object_}
  {
    var all := edges + [edge];
    assert all[|edges|] == edge && forall k :: 0 <= k < |edges| ==> all[k] == edges[k];
    assert forall k :: 0 <= k < |edges| ==> edges[k].subject in Endpoints(all) && edges[k].object_ in Endpoints(all);
  }

  lemma OneMoreSource(edges: seq<Edge>, edge: Edge, ref: string)
    ensures SourcesOf(edges + [edge], ref) == SourcesOf(edges, ref) + if Touches(edge, ref) then {edge.sourceEventId} else {}
  {
    hide Touches;
    var all := edges + [edge];
    assert all[|edges|] == edge && forall k :: 0 <= k < |edges| ==> all[k] == edges[k];
    assert forall id :: id in SourcesOf(edges, ref) ==> id in SourcesOf(all, ref);
  }

  lemma OneMoreSpan(edges: seq<Edge>, edge: Edge, ref: string)
    ensures SpansOf(edges + [edge], ref) == SpansOf(edges, ref) + if Touches(edge, ref) then {edge.sourceSpanId} else {}
  {
    hide Touches;
    var all := edges + [edge];
    assert all[|edges|] == edge && forall k :: 0 <= k < |edges| ==> all[k] == edges[k];
    assert forall id :: id in SpansOf(edges, ref) ==> id in SpansOf(all, ref);
  }

  function IdsAt(entities: map<string, Entity>, ref: string): set<string> {
    if ref in entities then Elements(entities[ref].eventIds) else {}
  }

  function SpansAt(entities: map<string, Entity>, ref: string): set<string> {
    if ref in entities then Elements(entities[ref].spanIds) else {}
  }

  ghost predicate WellKept(entities: map<string, Entity>) {
    forall ref :: ref in entities ==>
      entities[ref].ref == ref && StrictlySorted(entities[ref].eventIds) && StrictlySorted(entities[ref].spanIds)
  }

  /** Adding an endpoint adds the edge's source to that entity and to no other. */
  lemma AddEndpointExact(entities: map<string, Entity>, ref: string, edge: Edge)
    requires WellKept(entities)
    ensures var after := AddEndpoint(entities, ref, edge);
            && WellKept(after) && after.Keys == entities.Keys + {ref}
            && forall r :: IdsAt(after, r) == IdsAt(entities, r) + (if r == ref then {edge.sourceEventId} else {})
                           && SpansAt(after, r) == SpansAt(entities, r) + (if r == ref then {edge.sourceSpanId} else {})
  {
    hide SortUnique, StrLe;
    if ref in entities {
      var e := entities[ref];
      SortUniqueExact(e.eventIds + [edge.sourceEventId]);
      SortUniqueExact(e.spanIds + [edge.sourceSpanId]);
      assert Elements(e.eventIds + [edge.sourceEventId]) == Elements(e.eventIds) + {edge.sourceEventId};
      assert Elements(e.spanIds + [edge.sourceSpanId]) == Elements(e.spanIds) + {edge.sourceSpanId};
      hide StrictlySorted, Elements;
    }
  }

  /** The entities are exactly the endpoints of the edges, each with exactly the sources of its edges,
      sorted and without repeats. */
  ghost predicate EntitiesExact(entities: map<string, Entity>, edges: seq<Edge>) {
    && WellKept(entities) && entities.Keys == Endpoints(edges)
    && forall ref :: IdsAt(entities, ref) == SourcesOf(edges, ref) && SpansAt(entities, ref) == SpansOf(edges, ref)
  }

  lemma AddEdgeKeepsExact(entities: map<string, Entity>, edges: seq<Edge>, edge: Edge)
    requires EntitiesExact(entities, edges)
    ensures EntitiesExact(AddEndpoint(AddEndpoint(entities, edge.subject, edge), edge.object_, edge), edges + [edge])
  {
    hide WellKept, AddEndpoint, IdsAt, SpansAt, Endpoints, SourcesOf, SpansOf;
    OneMoreEdge(edges, edge);
    AddEndpointExact(entities, edge.subject, edge);
    AddEndpointExact(AddEndpoint(entities, edge.subject, edge), edge.object_, edge);
  }

  // ----- episodes -----

  predicate IsValid(rules: Rules, e: Event) {
    rules.validate(e) == []
  }

  /** Each source event shown by the last valid event that names it. */
  function EpisodesOf(rules: Rules, events: seq<Event>): map<string, Event> {
    if events == [] then map[]
    else
      var e := events[|events| - 1];
      var before := EpisodesOf(rules, events[..|events| - 1]);
      if IsValid(rules, e) then before[Strip(e.sourceEventId) := e] else before
  }

  // ----- the projection -----

  /** An answerable edge must be eligible, visible evidence, unexpired and unconflicted. */
  predicate CleanEdge(edge: Edge) {
    edge.semantics.answerSafe ==>
      edge.truthEligible && edge.supportVisibility == "answer_evidence" && edge.validTo == "" && !edge.semantics.conflicted
  }

  predicate Clean(out: Outcome) {
    match out
    case Rejected(_) => false
    case Skipped(_) => true
    case Projected(edge) => CleanEdge(edge)
  }

  predicate ByTime(a: Event, b: Event) {
    if Strip(a.transactionTime) == Strip(b.transactionTime) then StrLe(Strip(a.eventId), Strip(b.eventId))
    else StrLe(Strip(a.transactionTime), Strip(b.transactionTime))
  }

  predicate ByScopeAndId(a: Edge, b: Edge) {
    if a.scopeKey == b.scopeKey then StrLe(a.edgeId, b.edgeId) else StrLe(a.scopeKey, b.scopeKey)
  }

  datatype Projection = Projection(
    pass: bool, episodes: map<string, Event>, entities: map<string, Entity>,
    current: seq<Edge>, prior: seq<Edge>, inspectOnly: seq<Edge>, skipped: seq<string>, issues: seq<Issue>)

  method ProjectCanonicalEventsToGraphiti(rules: Rules, events: seq<Event>) returns (p: Projection)
    ensures var sorted := SortBy(ByTime, events);
            var edges := EdgesOf(rules, sorted);
            && p.issues == IssuesOf(rules, sorted) && p.skipped == SkippedOf(rules, sorted)
            && p.current == SortBy(ByScopeAndId, InBucket(edges, CurrentEdge))
            && p.prior == SortBy(ByScopeAndId, InBucket(edges, PriorEdge))
            && p.inspectOnly == SortBy(ByScopeAndId, InBucket(edges, InspectOnlyEdge))
            && EntitiesExact(p.entities, edges)
            && p.episodes == EpisodesOf(rules, sorted)
            && (p.pass <==> forall i :: 0 <= i < |sorted| ==> Clean(OutcomeOf(rules, sorted[i])))
    ensures ScopesInOrder(p.current) && ScopesInOrder(p.prior) && ScopesInOrder(p.inspectOnly)
    ensures p.pass <==> p.issues == [] && forall edge :: edge in p.current ==>
              edge.truthEligible && edge.supportVisibility == "answer_evidence" && edge.validTo == "" && !edge.semantics.conflicted
  {
    hide SortBy, ByTime, ByScopeAndId, ScopesInOrder, EntitiesExact, AddEndpoint, OutcomeOf, IssuesOf, SkippedOf, EdgesOf, EpisodesOf, InBucket, IsValid, Strip;
    var sorted := SortBy(ByTime, events);
    var episodes: map<string, Event>, entities: map<string, Entity> := map[], map[];
    var current, prior, inspectOnly, skipped, issues := [], [], [], [], [];
    var failures := 0;
    NothingYet(rules);
    for i := 0 to |sorted|
      invariant issues == IssuesOf(rules, sorted[..i]) && skipped == SkippedOf(rules, sorted[..i])
      invariant episodes == EpisodesOf(rules, sorted[..i])
      invariant current == InBucket(EdgesOf(rules, sorted[..i]), CurrentEdge)
      invariant prior == InBucket(EdgesOf(rules, sorted[..i]), PriorEdge)
      invariant inspectOnly == InBucket(EdgesOf(rules, sorted[..i]), InspectOnlyEdge)
      invariant EntitiesExact(entities, EdgesOf(rules, sorted[..i]))
      invariant failures >= 0
      invariant failures == 0 <==> forall k :: 0 <= k < i ==> Clean(OutcomeOf(rules, sorted[k]))
    {
      var event := sorted[i];
      ghost var edges := EdgesOf(rules, sorted[..i]);
      OneMoreEvent(rules, sorted[..i], event);
      assert sorted[..i + 1] == sorted[..i] + [event];
      if IsValid(rules, event) {
        episodes := episodes[Strip(event.sourceEventId) := event];
      }
      match OutcomeOf(rules, event) {
        case Rejected(issue) =>
          failures := failures + 1;
          issues := issues + [issue];
        case Skipped(id) =>
          skipped := skipped + [id];
        case Projected(edge) =>
          AddEdgeKeepsExact(entities, edges, edge);
          entities := AddEndpoint(AddEndpoint(entities, edge.subject, edge), edge.object_, edge);
          failures := failures + Violations(edge);
          BucketSnoc(edges, edge, CurrentEdge);
          BucketSnoc(edges, edge, PriorEdge);
          BucketSnoc(edges, edge, InspectOnlyEdge);
          if edge.semantics.answerSafe {
            current := current + [edge];
          } else if edge.semantics.prior {
            prior := prior + [edge];
          } else {
            inspectOnly := inspectOnly + [edge];
          }
      }
    }
    assert sorted[..|sorted|] == sorted;
    PassExactly(rules, sorted);
    SortedByScope(current);
    SortedByScope(prior);
    SortedByScope(inspectOnly);
    SortPermutes(ByScopeAndId, current);
    assert forall edge :: edge in SortBy(ByScopeAndId, current) <==> edge in multiset(current);
    p := Projection(failures == 0, episodes, entities, SortBy(ByScopeAndId, current), SortBy(ByScopeAndId, prior),
                    SortBy(ByScopeAndId, inspectOnly), skipped, issues);
  }

  /** Nothing was rejected, and every answerable edge is clean. */
  lemma {:induction false} PassExactly(rules: Rules, events: seq<Event>)
    ensures (forall i :: 0 <= i < |events| ==> Clean(OutcomeOf(rules, events[i]))) <==>
            IssuesOf(rules, events) == [] && forall edge :: edge in InBucket(EdgesOf(rules, events), CurrentEdge) ==>
              edge.truthEligible && edge.supportVisibility == "answer_evidence" && edge.validTo == "" && !edge.semantics.conflicted
  {
    hide OutcomeOf, IssuesOf, EdgesOf, InBucket, SkippedOf, EpisodesOf;
    NothingYet(rules);
    if events != [] {
      var n := |events| - 1;
      PassExactly(rules, events[..n]);
      OneMoreEvent(rules, events[..n], events[n]);
      assert events[..n] + [events[n]] == events;
      assert forall i :: 0 <= i < n ==> events[..n][i] == events[i];
      var out := OutcomeOf(rules, events[n]);
      if out.Projected? {
        BucketSnoc(EdgesOf(rules, events[..n]), out.edge, CurrentEdge);
      }
    }
  }

  lemma NothingYet(rules: Rules)
    ensures IssuesOf(rules, []) == [] && SkippedOf(rules, []) == [] && EdgesOf(rules, []) == [] && EpisodesOf(rules, []) == map[]
    ensures EntitiesExact(map[], []) && forall bucket :: InBucket([], bucket) == []
  {
    hide OutcomeOf, Strip;
  }

  lemma OneMoreEvent(rules: Rules, events: seq<Event>, e: Event)
    ensures IssuesOf(rules, events + [e]) ==
            if OutcomeOf(rules, e).Rejected? then IssuesOf(rules, events) + [OutcomeOf(rules, e).issue] else IssuesOf(rules, events)
    ensures SkippedOf(rules, events + [e]) ==
            if OutcomeOf(rules, e).Skipped? then SkippedOf(rules, events) + [OutcomeOf(rules, e).eventId] else SkippedOf(rules, events)
    ensures EdgesOf(rules, events + [e]) ==
            if OutcomeOf(rules, e).Projected? then EdgesOf(rules, events) + [OutcomeOf(rules, e).edge] else EdgesOf(rules, events)
    ensures EpisodesOf(rules, events + [e]) ==
            if IsValid(rules, e) then EpisodesOf(rules, events)[Strip(e.sourceEventId) := e] else EpisodesOf(rules, events)
  {
    hide OutcomeOf, Strip, IsValid;
    assert (events + [e])[..|events|] == events;
  }

  /** How many of the four answerability counters an edge raises. */
  function Violations(edge: Edge): (n: nat)
    ensures n == 0 <==> CleanEdge(edge)
  {
    if !edge.semantics.answerSafe then 0
    else
      (if edge.truthEligible then 0 else 1) + (if edge.supportVisibility == "answer_evidence" then 0 else 1)
      + (if edge.validTo == "" then 0 else 1) + (if edge.semantics.conflicted then 1 else 0)
  }

  lemma BucketSnoc(edges: seq<Edge>, edge: Edge, bucket: Bucket)
    ensures InBucket(edges + [edge], bucket) == if BucketOf(edge) == bucket then InBucket(edges, bucket) + [edge] else InBucket(edges, bucket)
  {
    hide BucketOf;
    assert (edges + [edge])[..|edges|] == edges;
  }

  // ----- what the projection promises -----

  /** An event becomes an edge exactly when it is valid, of a graph kind and graph-ready, names its source
      event and span, and has a relation and an object under one of their two names. */
  lemma ProjectedExactly(rules: Rules, e: Event)
    ensures OutcomeOf(rules, e).Projected? <==>
            && IsValid(rules, e) && Strip(e.memoryKind) in {"graph_relation", "graph_state", "temporal_event"} && e.graphReady
            && !Blank(e.sourceEventId) && !Blank(e.sourceSpanId)
            && !(Blank(e.relation) && Blank(e.targetSlot)) && !(Blank(e.objectRef) && Blank(e.valueHash))
    ensures OutcomeOf(rules, e).Projected? ==> CarriesEvent(rules, e, OutcomeOf(rules, e).edge)
  {
    hide Strip, Blank;
    StripBlank(e.subjectRef);
    StripBlank(e.sourceEventId);
    StripBlank(e.sourceSpanId);
    StripBlank(e.relation);
    StripBlank(e.targetSlot);
    StripBlank(e.objectRef);
    StripBlank(e.valueHash);
  }

  /** The edge carries the names, the times, the eligibility and the semantics of its event. */
  ghost predicate CarriesEvent(rules: Rules, e: Event, edge: Edge) {
    && edge.eventId == Strip(e.eventId)
    && edge.sourceEventId == Strip(e.sourceEventId) && edge.sourceSpanId == Strip(e.sourceSpanId)
    && edge.subject == (if Blank(e.subjectRef) then rules.hash(["subject", e.stableFactId]) else Strip(e.subjectRef))
    && edge.object_ == Strip(if Blank(e.objectRef) then e.valueHash else e.objectRef)
    && edge.relation == Strip(if Blank(e.relation) then e.targetSlot else e.relation)
    && edge.edgeId == rules.hash([edge.eventId, edge.subject, edge.relation, edge.object_])
    && edge.scopeKey == e.scopeKey && edge.validTo == Strip(e.validTo)
    && edge.truthEligible == e.truthEligible && edge.supportVisibility == Strip(e.supportVisibility)
    && edge.semantics == rules.classify(e)
  }

  /** An event is skipped exactly when it is valid and not for the graph; a rejected one has the validator's issues,
      or the one for what it does not name. */
  lemma NotProjected(rules: Rules, e: Event)
    ensures OutcomeOf(rules, e).Skipped? <==>
            IsValid(rules, e) && !(Strip(e.memoryKind) in {"graph_relation", "graph_state", "temporal_event"} && e.graphReady)
    ensures OutcomeOf(rules, e).Skipped? ==> OutcomeOf(rules, e).eventId == Strip(e.eventId)
    ensures OutcomeOf(rules, e).Rejected? ==>
              OutcomeOf(rules, e).issue ==
              Issue(Strip(e.eventId),
                    if !IsValid(rules, e) then rules.validate(e)
                    else if Blank(e.sourceEventId) || Blank(e.sourceSpanId) then ["missing_source_projection"]
                    else ["missing_graph_claim_parts"])
  {
    hide Strip, Blank;
    StripBlank(e.sourceEventId);
    StripBlank(e.sourceSpanId);
  }

  ghost function Rejects(rules: Rules): Event -> bool {
    e => OutcomeOf(rules, e).Rejected?
  }

  ghost function Skips(rules: Rules): Event -> bool {
    e => OutcomeOf(rules, e).Skipped?
  }

  ghost function Projects(rules: Rules): Event -> bool {
    e => OutcomeOf(rules, e).Projected?
  }

  ghost function IssueFor(rules: Rules): Event -> Issue {
    e => var out := OutcomeOf(rules, e); if out.Rejected? then out.issue else Issue("", [])
  }

  function IdOf(e: Event): string {
    Strip(e.eventId)
  }

  ghost function EdgeFor(rules: Rules): Event -> Edge {
    e => EdgeOf(rules, e)
  }

  /** By scope key, and within a scope by id. */
  ghost predicate ScopesInOrder(edges: seq<Edge>) {
    forall i, j :: 0 <= i < j < |edges| ==>
      StrLe(edges[i].scopeKey, edges[j].scopeKey)
      && (edges[i].scopeKey == edges[j].scopeKey ==> StrLe(edges[i].edgeId, edges[j].edgeId))
  }

  lemma SortedByScope(edges: seq<Edge>)
    ensures ScopesInOrder(SortBy(ByScopeAndId, edges))
  {
    ScopesOrdered();
    SortSorts(ByScopeAndId, edges);
    var sorted := SortBy(ByScopeAndId, edges);
    forall i, j | 0 <= i < j < |sorted|
      ensures StrLe(sorted[i].scopeKey, sorted[j].scopeKey)
      ensures sorted[i].scopeKey == sorted[j].scopeKey ==> StrLe(sorted[i].edgeId, sorted[j].edgeId)
    {
      assert ByScopeAndId(sorted[i], sorted[j]);
      StrLeTotal(sorted[i].scopeKey, sorted[i].scopeKey);
    }
  }

  lemma ScopesOrdered()
    ensures TotalPreorder(ByScopeAndId)
  {
    hide StrLe;
    forall a: Edge, b: Edge ensures ByScopeAndId(a, b) || ByScopeAndId(b, a) {
      StrLeTotal(a.scopeKey, b.scopeKey);
      StrLeTotal(a.edgeId, b.edgeId);
    }
    forall a: Edge, b: Edge, c: Edge | ByScopeAndId(a, b) && ByScopeAndId(b, c) ensures ByScopeAndId(a, c) {
      ScopesTransitive(a, b, c);
    }
  }

  lemma ScopesTransitive(a: Edge, b: Edge, c: Edge)
    requires ByScopeAndId(a, b) && ByScopeAndId(b, c)
    ensures ByScopeAndId(a, c)
  {
    hide StrLe;
    if a.scopeKey == b.scopeKey == c.scopeKey {
      StrLeTransitive(a.edgeId, b.edgeId, c.edgeId);
    } else if a.scopeKey != c.scopeKey {
      if a.scopeKey != b.scopeKey && b.scopeKey != c.scopeKey {
        StrLeTransitive(a.scopeKey, b.scopeKey, c.scopeKey);
      }
    } else {
      StrLeTotal(a.scopeKey, b.scopeKey);
    }
  }

  /** The events are read by time, and those of one time by id. */
  lemma EventsInOrder(events: seq<Event>)
    ensures var sorted := SortBy(ByTime, events);
            forall i, j :: 0 <= i < j < |sorted| ==>
              StrLe(Strip(sorted[i].transactionTime), Strip(sorted[j].transactionTime))
              && (Strip(sorted[i].transactionTime) == Strip(sorted[j].transactionTime) ==>
                    StrLe(Strip(sorted[i].eventId), Strip(sorted[j].eventId)))
  {
    hide Strip;
    TimesOrdered();
    SortSorts(ByTime, events);
    var sorted := SortBy(ByTime, events);
    forall i, j | 0 <= i < j < |sorted|
      ensures StrLe(Strip(sorted[i].transactionTime), Strip(sorted[j].transactionTime))
      ensures Strip(sorted[i].transactionTime) == Strip(sorted[j].transactionTime) ==>
                StrLe(Strip(sorted[i].eventId), Strip(sorted[j].eventId))
    {
      assert ByTime(sorted[i], sorted[j]);
      StrLeTotal(Strip(sorted[i].transactionTime), Strip(sorted[i].transactionTime));
    }
  }

  /** Every event ends in exactly one of the lists, in order, and the lists hold nothing else. */
  lemma {:induction false} EveryEventOnce(rules: Rules, events: seq<Event>) returns (rejected: seq<nat>, skipped: seq<nat>, projected: seq<nat>)
    ensures Picks(events, Rejects(rules), IssueFor(rules), IssuesOf(rules, events), rejected)
    ensures Picks(events, Skips(rules), IdOf, SkippedOf(rules, events), skipped)
    ensures Picks(events, Projects(rules), EdgeFor(rules), EdgesOf(rules, events), projected)
    ensures |events| == |IssuesOf(rules, events)| + |SkippedOf(rules, events)| + |EdgesOf(rules, events)|
  {
    hide OutcomeOf, IssuesOf, SkippedOf, EdgesOf, Picks, EdgeOf, IdOf;
    NothingYet(rules);
    if events == [] {
      rejected, skipped, projected := [], [], [];
      PicksNothing(Rejects(rules), IssueFor(rules));
      PicksNothing(Skips(rules), IdOf);
      PicksNothing(Projects(rules), EdgeFor(rules));
    } else {
      var n := |events| - 1;
      var front, e, out := events[..n], events[n], OutcomeOf(rules, events[n]);
      rejected, skipped, projected := EveryEventOnce(rules, front);
      OneMoreEvent(rules, front, e);
      PicksSnoc(front, e, Rejects(rules), IssueFor(rules), IssuesOf(rules, front), rejected);
      PicksSnoc(front, e, Skips(rules), IdOf, SkippedOf(rules, front), skipped);
      PicksSnoc(front, e, Projects(rules), EdgeFor(rules), EdgesOf(rules, front), projected);
      assert front + [e] == events;
      EntryOf(rules, e);
      match out {
        case Rejected(_) => rejected := rejected + [n];
        case Skipped(_) => skipped := skipped + [n];
        case Projected(_) => projected := projected + [n];
      }
    }
  }

  lemma EntryOf(rules: Rules, e: Event)
    ensures var out := OutcomeOf(rules, e);
            && (out.Skipped? ==> out.eventId == IdOf(e))
            && (out.Projected? ==> out.edge == EdgeFor(rules)(e))
  {
    hide Strip, EdgeOf, IsGraphKind;
  }

  /** The episode of a source event is the last valid event that names it; there is one for each that is named. */
  lemma {:induction false} EpisodesExactly(rules: Rules, events: seq<Event>, id: string)
    ensures id in EpisodesOf(rules, events) <==> exists i :: Names(rules, events, id, i)
    ensures id in EpisodesOf(rules, events) ==>
              exists i :: Names(rules, events, id, i) && events[i] == EpisodesOf(rules, events)[id]
                          && forall j :: Names(rules, events, id, j) ==> j <= i
  {
    hide Strip, IsValid;
    if events != [] {
      var n := |events| - 1;
      EpisodesExactly(rules, events[..n], id);
      forall i | i != n ensures Names(rules, events, id, i) <==> Names(rules, events[..n], id, i) {
        assert 0 <= i < n ==> events[..n][i] == events[i];
      }
      if Names(rules, events, id, n) {
        assert forall j :: Names(rules, events, id, j) ==> j <= n;
      }
    }
  }

  /** The event in this place is valid and has this source event. */
  ghost predicate Names(rules: Rules, events: seq<Event>, id: string, i: int) {
    0 <= i < |events| && IsValid(rules, events[i]) && Strip(events[i].sourceEventId) == id
  }

  lemma {:induction false} BucketsPartition(edges: seq<Edge>)
    ensures multiset(edges) ==
            multiset(InBucket(edges, CurrentEdge)) + multiset(InBucket(edges, PriorEdge)) + multiset(InBucket(edges, InspectOnlyEdge))
  {
    hide InBucket, BucketOf;
    if edges == [] {
      NoBuckets();
    } else {
      var n := |edges| - 1;
      BucketsPartition(edges[..n]);
      assert edges == edges[..n] + [edges[n]];
      BucketSnoc(edges[..n], edges[n], CurrentEdge);
      BucketSnoc(edges[..n], edges[n], PriorEdge);
      BucketSnoc(edges[..n], edges[n], InspectOnlyEdge);
    }
  }

  /** Only answer-safe edges are current, only prior ones that are not answer-safe are prior. */
  lemma {:induction false} BucketsMean(edges: seq<Edge>, edge: Edge)
    ensures edge in InBucket(edges, CurrentEdge) <==> edge in edges && edge.semantics.answerSafe
    ensures edge in InBucket(edges, PriorEdge) <==> edge in edges && !edge.semantics.answerSafe && edge.semantics.prior
    ensures edge in InBucket(edges, InspectOnlyEdge) <==> edge in edges && !edge.semantics.answerSafe && !edge.semantics.prior
  {
    if edges != [] {
      BucketsMean(edges[..|edges| - 1], edge);
      assert edge in edges <==> edge in edges[..|edges| - 1] || edge == edges[|edges| - 1];
    }
  }

  lemma NoBuckets()
    ensures forall bucket :: InBucket([], bucket) == []
  {
  }

  /** Every edge has its episode. */
  lemma {:induction false} EdgesHaveEpisodes(rules: Rules, events: seq<Event>, edge: Edge)
    requires edge in EdgesOf(rules, events)
    ensures edge.sourceEventId in EpisodesOf(rules, events) && edge.sourceEventId != "" && edge.sourceSpanId != ""
  {
    hide Strip, FirstOf, IsGraphKind;
    if edge in EdgesOf(rules, events[..|events| - 1]) {
      EdgesHaveEpisodes(rules, events[..|events| - 1], edge);
    }
  }

  lemma TimesOrdered()
    ensures TotalPreorder(ByTime)
  {
    hide Strip, StrLe;
    forall a: Event, b: Event ensures ByTime(a, b) || ByTime(b, a) {
      StrLeTotal(Strip(a.transactionTime), Strip(b.transactionTime));
      StrLeTotal(Strip(a.eventId), Strip(b.eventId));
    }
    forall a: Event, b: Event, c: Event | ByTime(a, b) && ByTime(b, c) ensures ByTime(a, c) {
      TimesTransitive(a, b, c);
    }
  }

  lemma TimesTransitive(a: Event, b: Event, c: Event)
    requires ByTime(a, b) && ByTime(b, c)
    ensures ByTime(a, c)
  {
    hide Strip, StrLe;
    var x, y, z := Strip(a.transactionTime), Strip(b.transactionTime), Strip(c.transactionTime);
    if x == y == z {
      StrLeTransitive(Strip(a.eventId), Strip(b.eventId), Strip(c.eventId));
    } else if x != z {
      if x != y && y != z {
        StrLeTransitive(x, y, z);
      }
    } else {
      StrLeTotal(x, y);
    }
  }

  /** The projection can be rebuilt from the same events in any order, unless two of them share time and id. */
  lemma RebuildIgnoresOrder(a: seq<Event>, b: seq<Event>)
    requires multiset(a) == multiset(b) && NoTies(ByTime, a)
    ensures SortBy(ByTime, a) == SortBy(ByTime, b)
  {
    hide ByTime, SortBy, Sorted, TotalPreorder;
    TimesOrdered();
    SortPermutes(ByTime, a);
    SortPermutes(ByTime, b);
    SortSorts(ByTime, a);
    SortSorts(ByTime, b);
    var sorted := SortBy(ByTime, a);
    forall e | e in sorted ensures e in a {
      assert e in multiset(sorted);
    }
    SortedUnique(ByTime, sorted, SortBy(ByTime, b));
  }
}
