/** Selecting memory cards under a token budget: `project_canonical_events_to_mempalace_budget` of
    brainstack/mempalace_budget_projection.py. */
module BudgetProjection {
  import opened Ordering
  import opened Results
  import opened Sequences

  datatype BudgetClass = AlwaysActive | ActiveIfTaskRelevant | RetrievalOnly | SupportOnly | Archived

  /** A canonical event: its texts, whether it is valid, and what the projection semantics say of it.
      The validator and the semantics classifier are not part of this model. */
  datatype Event = Event(
    eventId: string, stableFactId: string, memoryKind: string, budgetClass: string, supportVisibility: string,
    truthEligible: bool, valid: bool, authorityCritical: bool, supportOnly: bool, retrievalOnly: bool)

  datatype Card = Card(
    cardId: string, eventId: string, memoryKind: string, supportVisibility: string, truthEligible: bool,
    authorityCritical: bool, budgetClass: BudgetClass, tokens: nat)

  datatype Reason =
    | KeepAuthorityCritical | KeepAlwaysActive | KeepTaskRelevant
    | OverflowToRetrieval | DropRetrievalOnly | DropSupportOnly | ArchivedNoPrompt

  datatype Decision = Decision(card: Card, reason: Reason)

  /** How a card id is derived from an event id, a stable fact id and a class. */
  type Hash = (string, string, BudgetClass) -> string

  // ----- cards -----

  function ParseClass(text: string): Option<BudgetClass> {
    if text == "always_active" then Some(AlwaysActive)
    else if text == "active_if_task_relevant" then Some(ActiveIfTaskRelevant)
    else if text == "retrieval_only" then Some(RetrievalOnly)
    else if text == "support_only" then Some(SupportOnly)
    else if text == "archived" then Some(Archived)
    else None
  }

  function NormalizeBudgetClass(e: Event): BudgetClass {
    var given := ParseClass(e.budgetClass);
    if given.Some? then
      if given.value == Archived && e.authorityCritical && e.truthEligible then ActiveIfTaskRelevant else given.value
    else if e.authorityCritical && e.truthEligible && e.supportVisibility == "answer_evidence" then
      if e.memoryKind == "profile" || e.memoryKind == "preference" then AlwaysActive else ActiveIfTaskRelevant
    else if e.supportOnly then SupportOnly
    else if e.retrievalOnly || e.truthEligible then RetrievalOnly
    else Archived
  }

  function KindWeight(kind: string): nat {
    if kind == "preference" then 10
    else if kind == "" || kind == "support_only" then 18
    else if kind in ["profile", "reference", "temporal_event", "runtime_diagnostic", "operator_note"] then 12
    else 14
  }

  function EstimatedTokens(e: Event): nat {
    KindWeight(e.memoryKind) + (if e.truthEligible then 2 else 0) + if e.supportVisibility == "answer_evidence" then 2 else 0
  }

  /** The class of an event, condition by condition. */
  lemma ClassExactly(e: Event)
    ensures var c, given := NormalizeBudgetClass(e), e.budgetClass;
            var supported := given in {"always_active", "active_if_task_relevant", "retrieval_only", "support_only", "archived"};
            var evidence := e.authorityCritical && e.truthEligible && e.supportVisibility == "answer_evidence";
            var personal := e.memoryKind in {"profile", "preference"};
            && (c == AlwaysActive <==> given == "always_active" || (!supported && evidence && personal))
            && (c == ActiveIfTaskRelevant <==>
                  || given == "active_if_task_relevant" || (given == "archived" && e.authorityCritical && e.truthEligible)
                  || (!supported && evidence && !personal))
            && (c == SupportOnly <==> given == "support_only" || (!supported && !evidence && e.supportOnly))
            && (c == RetrievalOnly <==>
                  given == "retrieval_only" || (!supported && !evidence && !e.supportOnly && (e.retrievalOnly || e.truthEligible)))
            && (c == Archived <==>
                  || (given == "archived" && !(e.authorityCritical && e.truthEligible))
                  || (!supported && !evidence && !e.supportOnly && !e.retrievalOnly && !e.truthEligible))
  {
  }

  /** The weight of an event: that of its kind, and two each for eligibility and for being answer evidence. */
  lemma TokensExactly(e: Event)
    ensures var bonus := (if e.truthEligible then 2 else 0) + (if e.supportVisibility == "answer_evidence" then 2 else 0);
            var weight := EstimatedTokens(e) - bonus;
            && (weight == 10 <==> e.memoryKind == "preference")
            && (weight == 12 <==> e.memoryKind in {"profile", "reference", "temporal_event", "runtime_diagnostic", "operator_note"})
            && (weight == 18 <==> e.memoryKind in {"", "support_only"})
            && weight in {10, 12, 14, 18}
  {
  }

  function CardOf(hash: Hash, e: Event): Card {
    var c := NormalizeBudgetClass(e);
    Card(hash(e.eventId, e.stableFactId, c), e.eventId, e.memoryKind, e.supportVisibility, e.truthEligible,
         e.authorityCritical, c, EstimatedTokens(e))
  }

  function CardsOf(hash: Hash, events: seq<Event>): seq<Card> {
    if events == [] then []
    else
      var n := |events| - 1;
      CardsOf(hash, events[..n]) + if events[n].valid then [CardOf(hash, events[n])] else []
  }

  function Priority(c: BudgetClass): nat {
    match c
    case AlwaysActive => 0
    case ActiveIfTaskRelevant => 1
    case RetrievalOnly => 2
    case SupportOnly => 3
    case Archived => 4
  }

  /** The sort order: class, then kind, then card id. */
  predicate CardLe(a: Card, b: Card) {
    var p, q := Priority(a.budgetClass), Priority(b.budgetClass);
    p < q
    || (p == q && a.memoryKind != b.memoryKind && StrLe(a.memoryKind, b.memoryKind))
    || (p == q && a.memoryKind == b.memoryKind && StrLe(a.cardId, b.cardId))
  }

  // ----- selection -----

  /** The sum of a weight over a list of cards. */
  function Sum(cards: seq<Card>, weight: Card -> nat): nat {
    if cards == [] then 0 else Sum(cards[..|cards| - 1], weight) + weight(cards[|cards| - 1])
  }

  function TokensOf(c: Card): nat {
    c.tokens
  }

  function CriticalTokensOf(c: Card): nat {
    if c.authorityCritical then c.tokens else 0
  }

  function OptionalTokensOf(c: Card): nat {
    if c.authorityCritical then 0 else c.tokens
  }

  function Tokens(cards: seq<Card>): nat {
    Sum(cards, TokensOf)
  }

  function CriticalTokens(cards: seq<Card>): nat {
    Sum(cards, CriticalTokensOf)
  }

  function OptionalTokens(cards: seq<Card>): nat {
    Sum(cards, OptionalTokensOf)
  }

  /** What happens to a card when `selected` tokens have been spent. */
  function Decide(c: Card, selected: nat, maxTokens: int, failClosed: bool): Reason {
    var fits := !failClosed && selected + c.tokens <= maxTokens;
    if c.authorityCritical then KeepAuthorityCritical
    else
      match c.budgetClass
      case AlwaysActive => if fits then KeepAlwaysActive else OverflowToRetrieval
      case ActiveIfTaskRelevant => if fits then KeepTaskRelevant else OverflowToRetrieval
      case RetrievalOnly => DropRetrievalOnly
      case SupportOnly => DropSupportOnly
      case Archived => ArchivedNoPrompt
  }

  predicate Keeps(r: Reason) {
    r == KeepAuthorityCritical || r == KeepAlwaysActive || r == KeepTaskRelevant
  }

  /** The cards of some decisions. */
  function CardsWith(ds: seq<Decision>, picks: Reason -> bool): seq<Card> {
    if ds == [] then []
    else
      var d := ds[|ds| - 1];
      CardsWith(ds[..|ds| - 1], picks) + if picks(d.reason) then [d.card] else []
  }

  function Active(ds: seq<Decision>): seq<Card> {
    CardsWith(ds, r => Keeps(r))
  }

  function ToRetrieval(ds: seq<Decision>): seq<Card> {
    CardsWith(ds, r => r == OverflowToRetrieval || r == DropRetrievalOnly)
  }

  function ToSupport(ds: seq<Decision>): seq<Card> {
    CardsWith(ds, r => r == DropSupportOnly)
  }

  function ToArchive(ds: seq<Decision>): seq<Card> {
    CardsWith(ds, r => r == ArchivedNoPrompt)
  }

  /** The decisions on sorted cards, in order; what has been spent is what the kept cards weigh. */
  function Decisions(cards: seq<Card>, maxTokens: int, failClosed: bool): (ds: seq<Decision>)
    ensures |ds| == |cards| && forall i :: 0 <= i < |cards| ==> ds[i].card == cards[i]
  {
    if cards == [] then []
    else
      var n := |cards| - 1;
      var front := Decisions(cards[..n], maxTokens, failClosed);
      front + [Decision(cards[n], Decide(cards[n], Tokens(Active(front)), maxTokens, failClosed))]
  }

  datatype Projection = Projection(
    selectedTokens: nat, baselineTokens: nat, failClosed: bool,
    active: seq<Card>, retrievalOnly: seq<Card>, supportOnly: seq<Card>, archived: seq<Card>,
    decisions: seq<Decision>, criticalDropped: nat)

  function FailClosed(cards: seq<Card>, maxTokens: int): bool {
    CriticalTokens(cards) > maxTokens
  }

  /** The projection of a list of sorted cards. */
  function ProjectCards(cards: seq<Card>, maxTokens: int): Projection {
    var closed := FailClosed(cards, maxTokens);
    var ds := Decisions(cards, maxTokens, closed);
    Projection(Tokens(Active(ds)), Tokens(cards), closed, Active(ds), ToRetrieval(ds), ToSupport(ds), ToArchive(ds), ds, 0)
  }

  function Project(hash: Hash, events: seq<Event>, maxTokens: int): Projection {
    ProjectCards(SortBy(CardLe, CardsOf(hash, events)), maxTokens)
  }

  lemma SumSnoc(cards: seq<Card>, c: Card, weight: Card -> nat)
    ensures Sum(cards + [c], weight) == Sum(cards, weight) + weight(c)
  {
    assert (cards + [c])[..|cards|] == cards;
  }

  lemma TokensSnoc(cards: seq<Card>, c: Card)
    ensures Tokens(cards + [c]) == Tokens(cards) + c.tokens
    ensures CriticalTokens(cards + [c]) == CriticalTokens(cards) + if c.authorityCritical then c.tokens else 0
    ensures OptionalTokens(cards + [c]) == OptionalTokens(cards) + if c.authorityCritical then 0 else c.tokens
  {
    SumSnoc(cards, c, TokensOf);
    SumSnoc(cards, c, CriticalTokensOf);
    SumSnoc(cards, c, OptionalTokensOf);
  }

  // ----- the loops -----

  method BuildCards(hash: Hash, events: seq<Event>) returns (cards: seq<Card>)
    ensures cards == CardsOf(hash, events)
  {
    hide CardOf;
    cards := [];
    for i := 0 to |events|
      invariant cards == CardsOf(hash, events[..i])
    {
      assert events[..i + 1][..i] == events[..i];
      if events[i].valid {
        cards := cards + [CardOf(hash, events[i])];
      }
    }
    assert events[..|events|] == events;
  }

  datatype Lists = Lists(active: seq<Card>, retrieval: seq<Card>, support: seq<Card>, archived: seq<Card>)

  function ListsOf(ds: seq<Decision>): Lists {
    Lists(Active(ds), ToRetrieval(ds), ToSupport(ds), ToArchive(ds))
  }

  function Put(l: Lists, c: Card, reason: Reason): Lists {
    if Keeps(reason) then l.(active := l.active + [c])
    else if reason == OverflowToRetrieval || reason == DropRetrievalOnly then l.(retrieval := l.retrieval + [c])
    else if reason == DropSupportOnly then l.(support := l.support + [c])
    else l.(archived := l.archived + [c])
  }

  /** The loop over the sorted cards: one decision each, and the card goes to the list of its reason. */
  method Select(cards: seq<Card>, maxTokens: int, failClosed: bool) returns (lists: Lists, ds: seq<Decision>, selected: nat)
    ensures ds == Decisions(cards, maxTokens, failClosed)
    ensures lists == ListsOf(ds) && selected == Tokens(lists.active)
  {
    hide Active, Tokens, Decide, Decisions, ListsOf, Put, Keeps;
    lists, ds, selected := Lists([], [], [], []), [], 0;
    NothingDecided(maxTokens, failClosed);
    for i := 0 to |cards|
      invariant ds == Decisions(cards[..i], maxTokens, failClosed)
      invariant lists == ListsOf(ds)
      invariant selected == Tokens(lists.active)
    {
      var c := cards[i];
      assert cards[..i + 1] == cards[..i] + [c];
      var reason := Decide(c, selected, maxTokens, failClosed);
      DecideNext(cards[..i], c, maxTokens, failClosed);
      PutTokens(lists, c, reason);
      lists := Put(lists, c, reason);
      if Keeps(reason) {
        selected := selected + c.tokens;
      }
      ds := ds + [Decision(c, reason)];
    }
    assert cards[..|cards|] == cards;
  }

  lemma NothingDecided(maxTokens: int, failClosed: bool)
    ensures Decisions([], maxTokens, failClosed) == [] && ListsOf([]) == Lists([], [], [], []) && Tokens([]) == 0
  {
  }

  lemma PutTokens(l: Lists, c: Card, reason: Reason)
    ensures Tokens(Put(l, c, reason).active) == Tokens(l.active) + if Keeps(reason) then c.tokens else 0
  {
    hide Tokens;
    TokensSnoc(l.active, c);
  }

  lemma PutSnoc(ds: seq<Decision>, d: Decision)
    ensures ListsOf(ds + [d]) == Put(ListsOf(ds), d.card, d.reason)
  {
    ListsSnoc(ds, d);
    hide Active, ToRetrieval, ToSupport, ToArchive;
    NoMore(Active(ds));
    NoMore(ToRetrieval(ds));
    NoMore(ToSupport(ds));
    NoMore(ToArchive(ds));
  }

  lemma NoMore(cards: seq<Card>)
    ensures cards + [] == cards
  {
  }

  lemma NoLists()
    ensures Active([]) == ToRetrieval([]) == ToSupport([]) == ToArchive([]) == [] && Tokens([]) == 0
  {
  }

  lemma ListsSnoc(ds: seq<Decision>, d: Decision)
    ensures Active(ds + [d]) == Active(ds) + if Keeps(d.reason) then [d.card] else []
    ensures ToRetrieval(ds + [d]) ==
            ToRetrieval(ds) + if d.reason == OverflowToRetrieval || d.reason == DropRetrievalOnly then [d.card] else []
    ensures ToSupport(ds + [d]) == ToSupport(ds) + if d.reason == DropSupportOnly then [d.card] else []
    ensures ToArchive(ds + [d]) == ToArchive(ds) + if d.reason == ArchivedNoPrompt then [d.card] else []
  {
    assert (ds + [d])[..|ds|] == ds;
  }

  /** What one more card adds to the decisions and to the lists. */
  lemma DecideNext(cards: seq<Card>, c: Card, maxTokens: int, failClosed: bool)
    ensures var ds := Decisions(cards, maxTokens, failClosed);
            var reason := Decide(c, Tokens(ListsOf(ds).active), maxTokens, failClosed);
            && ListsOf(ds).active == Active(ds)
            && Decisions(cards + [c], maxTokens, failClosed) == ds + [Decision(c, reason)]
            && ListsOf(ds + [Decision(c, reason)]) == Put(ListsOf(ds), c, reason)
  {
    hide Active, ToRetrieval, ToSupport, ToArchive, Tokens, Decide, Put;
    assert (cards + [c])[..|cards|] == cards;
    var ds := Decisions(cards, maxTokens, failClosed);
    PutSnoc(ds, Decision(c, Decide(c, Tokens(Active(ds)), maxTokens, failClosed)));
  }

  method SumCritical(cards: seq<Card>) returns (total: nat)
    ensures total == CriticalTokens(cards)
  {
    total := 0;
    for i := 0 to |cards|
      invariant total == CriticalTokens(cards[..i])
    {
      TokensSnoc(cards[..i], cards[i]);
      assert cards[..i] + [cards[i]] == cards[..i + 1];
      if cards[i].authorityCritical {
        total := total + cards[i].tokens;
      }
    }
    assert cards[..|cards|] == cards;
  }

  method ProjectCanonicalEvents(hash: Hash, events: seq<Event>, maxTokens: int) returns (p: Projection)
    ensures p == Project(hash, events, maxTokens)
  {
    hide CardLe, Decisions, CardsOf;
    var cards := BuildCards(hash, events);
    cards := SortBy(CardLe, cards);
    var authorityTokens := SumCritical(cards);
    var failClosed := authorityTokens > maxTokens;
    var lists, ds, selected := Select(cards, maxTokens, failClosed);
    var dropped := 0;
    for i := 0 to |cards|
      invariant dropped == 0
    {
      if cards[i].authorityCritical && !exists c :: c in lists.active && c.cardId == cards[i].cardId {
        CriticalIsActive(cards, maxTokens, failClosed, cards[i]);
        dropped := dropped + 1;
      }
    }
    p := Projection(selected, Tokens(cards), failClosed, lists.active, lists.retrieval, lists.support, lists.archived, ds, dropped);
  }

  // ----- safety -----

  lemma {:induction false} CriticalIsActive(cards: seq<Card>, maxTokens: int, failClosed: bool, c: Card)
    requires c in cards && c.authorityCritical
    ensures c in Active(Decisions(cards, maxTokens, failClosed))
  {
    hide Active, ToRetrieval, ToSupport, ToArchive, Tokens, Decisions;
    var n := |cards| - 1;
    var front := Decisions(cards[..n], maxTokens, failClosed);
    assert cards[..n] + [cards[n]] == cards;
    DecideNext(cards[..n], cards[n], maxTokens, failClosed);
    ListsSnoc(front, Decision(cards[n], Decide(cards[n], Tokens(Active(front)), maxTokens, failClosed)));
    if c in cards[..n] {
      CriticalIsActive(cards[..n], maxTokens, failClosed, c);
    }
  }

  function AllOf(l: Lists): multiset<Card> {
    multiset(l.active) + multiset(l.retrieval) + multiset(l.support) + multiset(l.archived)
  }

  lemma PutConserves(l: Lists, c: Card, reason: Reason)
    ensures AllOf(Put(l, c, reason)) == AllOf(l) + multiset{c}
  {
  }

  /** Each card is in exactly one of the four lists. */
  lemma {:induction false} ListsPartition(ds: seq<Decision>, cards: seq<Card>)
    requires |ds| == |cards| && forall i :: 0 <= i < |cards| ==> ds[i].card == cards[i]
    ensures multiset(Active(ds)) + multiset(ToRetrieval(ds)) + multiset(ToSupport(ds)) + multiset(ToArchive(ds)) == multiset(cards)
  {
    NoLists();
    hide Active, ToRetrieval, ToSupport, ToArchive, Put;
    if ds != [] {
      var n := |ds| - 1;
      var front := ds[..n];
      ListsPartition(front, cards[..n]);
      PutSnoc(front, ds[n]);
      PutConserves(ListsOf(front), cards[n], ds[n].reason);
      assert front + [ds[n]] == ds && cards[..n] + [cards[n]] == cards;
      assert AllOf(ListsOf(ds)) == multiset(cards);
    }
  }

  /** Each decision is made with what the decisions before it have spent. */
  lemma {:induction false} DecidedInOrder(cards: seq<Card>, maxTokens: int, failClosed: bool, i: nat)
    requires i < |cards|
    ensures var ds, front := Decisions(cards, maxTokens, failClosed), Decisions(cards[..i], maxTokens, failClosed);
            && ds[..i] == front
            && ds[i] == Decision(cards[i], Decide(cards[i], Tokens(Active(front)), maxTokens, failClosed))
  {
    hide Active, Tokens, Decide, Decisions, Put;
    var n := |cards| - 1;
    assert cards[..n] + [cards[n]] == cards;
    DecideNext(cards[..n], cards[n], maxTokens, failClosed);
    if i < n {
      DecidedInOrder(cards[..n], maxTokens, failClosed, i);
      assert cards[..n][..i] == cards[..i];
    }
  }

  predicate IsOptional(c: Card) {
    c.budgetClass == AlwaysActive || c.budgetClass == ActiveIfTaskRelevant
  }

  /** No card is dropped needlessly: one is kept exactly when it is critical, or may be active and fits behind
      what was kept before it; a card that may be active and does not fit goes to retrieval, any other to the
      list of its class. */
  lemma DroppedForAReason(cards: seq<Card>, maxTokens: int, failClosed: bool, i: nat)
    requires i < |cards|
    ensures var ds, c := Decisions(cards, maxTokens, failClosed), cards[i];
            && (Keeps(ds[i].reason) <==>
                c.authorityCritical
                || (IsOptional(c) && !failClosed && Tokens(Active(ds[..i])) + c.tokens <= maxTokens))
            && (ds[i].reason == KeepAuthorityCritical <==> c.authorityCritical)
            && (ds[i].reason == KeepAlwaysActive ==> c.budgetClass == AlwaysActive)
            && (ds[i].reason == KeepTaskRelevant ==> c.budgetClass == ActiveIfTaskRelevant)
            && (!Keeps(ds[i].reason) ==>
                  (ds[i].reason == OverflowToRetrieval <==> IsOptional(c))
                  && (ds[i].reason == DropRetrievalOnly <==> c.budgetClass == RetrievalOnly)
                  && (ds[i].reason == DropSupportOnly <==> c.budgetClass == SupportOnly)
                  && (ds[i].reason == ArchivedNoPrompt <==> c.budgetClass == Archived))
  {
    hide Active, Tokens, Decisions;
    DecidedInOrder(cards, maxTokens, failClosed, i);
  }

  /** What is spent is the critical tokens, all of them, plus optional ones that never exceed the budget and
      are none at all when the projection fails closed. */
  lemma {:induction false} Spent(cards: seq<Card>, maxTokens: int, failClosed: bool)
    ensures var active := Active(Decisions(cards, maxTokens, failClosed));
            && Tokens(active) == CriticalTokens(cards) + OptionalTokens(active)
            && (failClosed ==> OptionalTokens(active) == 0)
            && (OptionalTokens(active) > 0 ==> OptionalTokens(active) <= maxTokens)
  {
    NoLists();
    hide Active, ToRetrieval, ToSupport, ToArchive, Tokens, CriticalTokens, OptionalTokens;
    if cards == [] {
      assert CriticalTokens(cards) == 0 && OptionalTokens([]) == 0 by { NothingSpent(); }
    } else {
      var n := |cards| - 1;
      var c, front := cards[n], Decisions(cards[..n], maxTokens, failClosed);
      Spent(cards[..n], maxTokens, failClosed);
      var d := Decision(c, Decide(c, Tokens(Active(front)), maxTokens, failClosed));
      ListsSnoc(front, d);
      TokensSnoc(Active(front), c);
      TokensSnoc(cards[..n], c);
      assert cards[..n] + [c] == cards && Active(front) + [] == Active(front);
    }
  }

  lemma NothingSpent()
    ensures CriticalTokens([]) == 0 && OptionalTokens([]) == 0
  {
  }

  lemma {:induction false} SumAppend(a: seq<Card>, b: seq<Card>, weight: Card -> nat)
    ensures Sum(a + b, weight) == Sum(a, weight) + Sum(b, weight)
  {
    if b == [] {
      assert a + b == a;
    } else {
      SumAppend(a, b[..|b| - 1], weight);
      assert (a + b)[..|a + b| - 1] == a + b[..|b| - 1];
    }
  }

  lemma SumWithout(cards: seq<Card>, j: nat, weight: Card -> nat)
    requires j < |cards|
    ensures Sum(cards, weight) == Sum(cards[..j] + cards[j + 1..], weight) + weight(cards[j])
  {
    hide Sum;
    SumAppend(cards[..j], cards[j..], weight);
    SumAppend([cards[j]], cards[j + 1..], weight);
    SumAppend(cards[..j], cards[j + 1..], weight);
    assert cards[..j] + cards[j..] == cards && [cards[j]] + cards[j + 1..] == cards[j..];
    SumOne(cards[j], weight);
  }

  lemma SumOne(c: Card, weight: Card -> nat)
    ensures Sum([c], weight) == weight(c)
  {
    assert [c][..0] == [];
  }

  lemma RemoveAt<T>(xs: seq<T>, j: nat)
    requires j < |xs|
    ensures multiset(xs[..j] + xs[j + 1..]) == multiset(xs) - multiset{xs[j]}
  {
    assert xs == xs[..j] + [xs[j]] + xs[j + 1..];
  }

  lemma {:induction false} SumPermuted(a: seq<Card>, b: seq<Card>, weight: Card -> nat)
    requires multiset(a) == multiset(b)
    ensures Sum(a, weight) == Sum(b, weight)
    decreases |a|
  {
    assert |a| == |multiset(a)| && |b| == |multiset(b)|;
    if a != [] {
      var n := |a| - 1;
      assert a[n] in multiset(b);
      var j :| 0 <= j < |b| && b[j] == a[n];
      Front(a);
      RemoveAt(b, j);
      SumPermuted(a[..n], b[..j] + b[j + 1..], weight);
      SumWithout(b, j, weight);
    }
  }

  /** The safety of the projection. Every valid card is in exactly one list, every authority-critical one is
      active, none is counted as dropped, and the active cards weigh exactly the reported tokens: at most
      the budget on top of the critical tokens, and only those when it fails closed, which it does exactly
      when the critical cards alone exceed the budget. */
  lemma ProjectionSafe(hash: Hash, events: seq<Event>, maxTokens: int)
    ensures var p, cards := Project(hash, events, maxTokens), CardsOf(hash, events);
            var critical := CriticalTokens(cards);
            && multiset(p.active) + multiset(p.retrievalOnly) + multiset(p.supportOnly) + multiset(p.archived) == multiset(cards)
            && (forall c :: c in cards && c.authorityCritical ==> c in p.active)
            && p.selectedTokens == Tokens(p.active)
            && (p.failClosed <==> critical > maxTokens)
            && (if p.failClosed then p.selectedTokens == critical else critical <= p.selectedTokens <= maxTokens + critical)
            && p.criticalDropped == 0
  {
    hide CardsOf, CardLe, SortBy, Decisions, Active, ToRetrieval, ToSupport, ToArchive, Sum;
    var given := CardsOf(hash, events);
    var cards := SortBy(CardLe, given);
    SortPermutes(CardLe, given);
    SumPermuted(cards, given, CriticalTokensOf);
    var closed := FailClosed(cards, maxTokens);
    Spent(cards, maxTokens, closed);
    ListsPartition(Decisions(cards, maxTokens, closed), cards);
    forall c | c in given && c.authorityCritical ensures c in Active(Decisions(cards, maxTokens, closed)) {
      assert c in multiset(cards);
      CriticalIsActive(cards, maxTokens, closed, c);
    }
  }

  // ----- which cards there are, and in which order -----

  predicate IsValid(e: Event) {
    e.valid
  }

  /** The card carries its event's texts and flags, its class and its weight. */
  ghost function CardFor(hash: Hash): Event -> Card {
    (e: Event) =>
      var c := NormalizeBudgetClass(e);
      Card(hash(e.eventId, e.stableFactId, c), e.eventId, e.memoryKind, e.supportVisibility,
           e.truthEligible, e.authorityCritical, c, EstimatedTokens(e))
  }

  /** There is one card for each valid event, in order. */
  lemma {:induction false} CardsExactly(hash: Hash, events: seq<Event>) returns (at: seq<nat>)
    ensures Picks(events, IsValid, CardFor(hash), CardsOf(hash, events), at)
  {
    hide Picks, NormalizeBudgetClass, EstimatedTokens;
    if events == [] {
      at := [];
      PicksNothing(IsValid, CardFor(hash));
    } else {
      var n := |events| - 1;
      var front := CardsExactly(hash, events[..n]);
      PicksSnoc(events[..n], events[n], IsValid, CardFor(hash), CardsOf(hash, events[..n]), front);
      assert events[..n] + [events[n]] == events && CardsOf(hash, events[..n]) + [] == CardsOf(hash, events[..n]);
      at := if events[n].valid then front + [n] else front;
    }
  }

  /** Always-active cards are considered first, then those that are active when relevant, those for retrieval, those
      for support and the archived ones; within a class by kind, and within a kind by id. */
  ghost predicate InOrder(a: Card, b: Card) {
    && (b.budgetClass == AlwaysActive ==> a.budgetClass == AlwaysActive)
    && (b.budgetClass == ActiveIfTaskRelevant ==> a.budgetClass in {AlwaysActive, ActiveIfTaskRelevant})
    && (b.budgetClass == RetrievalOnly ==> a.budgetClass !in {SupportOnly, Archived})
    && (b.budgetClass == SupportOnly ==> a.budgetClass != Archived)
    && (a.budgetClass == b.budgetClass ==> StrLe(a.memoryKind, b.memoryKind))
    && (a.budgetClass == b.budgetClass && a.memoryKind == b.memoryKind ==> StrLe(a.cardId, b.cardId))
  }

  lemma CardsInOrder(hash: Hash, events: seq<Event>, maxTokens: int)
    ensures var ds := Project(hash, events, maxTokens).decisions;
            forall i, j :: 0 <= i < j < |ds| ==> InOrder(ds[i].card, ds[j].card)
  {
    var cards := SortBy(CardLe, CardsOf(hash, events));
    CardLeOrder();
    SortSorts(CardLe, CardsOf(hash, events));
    forall i, j | 0 <= i < j < |cards| ensures InOrder(cards[i], cards[j]) {
      LeInOrder(cards[i], cards[j]);
    }
    hide InOrder, CardLe, Sorted, CardsOf, SortBy, Active, Tokens;
  }

  lemma LeInOrder(a: Card, b: Card)
    requires CardLe(a, b)
    ensures InOrder(a, b)
  {
    StrLeTotal(a.memoryKind, b.memoryKind);
    hide StrLe;
  }

  // ----- the order of events does not matter -----

  lemma CardLeOrder()
    ensures TotalPreorder(CardLe)
  {
    forall a, b ensures CardLe(a, b) || CardLe(b, a) {
      StrLeTotal(a.memoryKind, b.memoryKind);
      StrLeTotal(a.cardId, b.cardId);
    }
    forall a, b, c | CardLe(a, b) && CardLe(b, c) ensures CardLe(a, c) {
      CardLeTransitive(a, b, c);
    }
  }

  lemma CardLeTransitive(a: Card, b: Card, c: Card)
    requires CardLe(a, b) && CardLe(b, c)
    ensures CardLe(a, c)
  {
    hide StrLe;
    if a.budgetClass == b.budgetClass == c.budgetClass {
      var x, y, z := a.memoryKind, b.memoryKind, c.memoryKind;
      if x != y && y != z {
        StrLeTransitive(x, y, z);
        StrLeTotal(x, y);
      } else if x == y == z {
        StrLeTransitive(a.cardId, b.cardId, c.cardId);
      }
    }
  }

  ghost predicate DistinctIds(cards: seq<Card>) {
    forall i, j :: 0 <= i < j < |cards| ==> cards[i].cardId != cards[j].cardId
  }

  lemma DistinctNoTies(cards: seq<Card>)
    requires DistinctIds(cards)
    ensures NoTies(CardLe, cards)
  {
    hide StrLe;
    forall a, b | a in cards && b in cards && CardLe(a, b) && CardLe(b, a) ensures a == b {
      StrLeTotal(a.memoryKind, b.memoryKind);
      StrLeTotal(a.cardId, b.cardId);
      var i :| 0 <= i < |cards| && cards[i] == a;
      var j :| 0 <= j < |cards| && cards[j] == b;
    }
  }

  lemma {:induction false} CardsAppend(hash: Hash, a: seq<Event>, b: seq<Event>)
    ensures CardsOf(hash, a + b) == CardsOf(hash, a) + CardsOf(hash, b)
  {
    if b == [] {
      assert a + b == a;
    } else {
      var n := |b| - 1;
      CardsAppend(hash, a, b[..n]);
      assert a + b == (a + b[..n]) + [b[n]] && b[..n] + [b[n]] == b;
      CardsSnoc(hash, a + b[..n], b[n]);
      CardsSnoc(hash, b[..n], b[n]);
      hide CardsOf, CardOf;
    }
  }

  lemma CardsSnoc(hash: Hash, events: seq<Event>, e: Event)
    ensures CardsOf(hash, events + [e]) == if e.valid then CardsOf(hash, events) + [CardOf(hash, e)] else CardsOf(hash, events)
  {
    hide CardOf;
    assert (events + [e])[..|events|] == events;
  }

  lemma CardsWithout(hash: Hash, events: seq<Event>, j: nat)
    requires j < |events|
    ensures multiset(CardsOf(hash, events)) ==
            multiset(CardsOf(hash, events[..j] + events[j + 1..])) + multiset(CardsOf(hash, [events[j]]))
  {
    hide CardsOf;
    CardsAppend(hash, events[..j], events[j..]);
    CardsAppend(hash, [events[j]], events[j + 1..]);
    CardsAppend(hash, events[..j], events[j + 1..]);
    assert events[..j] + events[j..] == events && [events[j]] + events[j + 1..] == events[j..];
  }

  lemma {:induction false} CardsPermuted(hash: Hash, a: seq<Event>, b: seq<Event>)
    requires multiset(a) == multiset(b)
    ensures multiset(CardsOf(hash, a)) == multiset(CardsOf(hash, b))
    decreases |a|
  {
    hide CardsOf;
    assert |a| == |multiset(a)| && |b| == |multiset(b)|;
    if a != [] {
      var n := |a| - 1;
      assert a[n] in multiset(b);
      var j :| 0 <= j < |b| && b[j] == a[n];
      Front(a);
      RemoveAt(b, j);
      CardsPermuted(hash, a[..n], b[..j] + b[j + 1..]);
      CardsWithout(hash, b, j);
      CardsAppend(hash, a[..n], [a[n]]);
      assert a[..n] + [a[n]] == a;
    }
  }

  /** With distinct card ids the whole projection, the decisions and their order included, is the same for
      every order of the events. */
  lemma OrderDoesNotMatter(hash: Hash, a: seq<Event>, b: seq<Event>, maxTokens: int)
    requires multiset(a) == multiset(b) && DistinctIds(CardsOf(hash, a))
    ensures Project(hash, a, maxTokens) == Project(hash, b, maxTokens)
  {
    hide CardsOf, CardLe, SortBy, ProjectCards;
    var x, y := CardsOf(hash, a), CardsOf(hash, b);
    CardsPermuted(hash, a, b);
    CardLeOrder();
    SortSorts(CardLe, x);
    SortSorts(CardLe, y);
    SortPermutes(CardLe, x);
    SortPermutes(CardLe, y);
    DistinctNoTies(x);
    TiesKept(CardLe, x, SortBy(CardLe, x));
    SortedUnique(CardLe, SortBy(CardLe, x), SortBy(CardLe, y));
  }

  lemma TiesKept<T(!new)>(le: (T, T) -> bool, xs: seq<T>, ys: seq<T>)
    requires NoTies(le, xs) && multiset(xs) == multiset(ys)
    ensures NoTies(le, ys)
  {
    forall a | a in ys ensures a in xs {
      assert a in multiset(ys);
    }
  }

  // ----- the budget can be exceeded without failing closed -----

  /** The check that is made for optional cards and not for critical ones: each critical card fits behind
      what was kept before it. */
  ghost predicate CriticalFits(cards: seq<Card>, maxTokens: int, i: nat)
    requires i < |cards|
  {
    cards[i].authorityCritical ==> Tokens(Active(Decisions(cards[..i], maxTokens, false))) + cards[i].tokens <= maxTokens
  }

  ghost predicate AllCriticalFit(cards: seq<Card>, maxTokens: int) {
    forall i :: 0 <= i < |cards| ==> CriticalFits(cards, maxTokens, i)
  }

  /** When it does not fail closed the selection keeps the budget exactly when every critical card fits. */
  lemma {:induction false} WithinBudgetExactly(cards: seq<Card>, maxTokens: int)
    requires CriticalTokens(cards) <= maxTokens
    ensures Tokens(Active(Decisions(cards, maxTokens, false))) <= maxTokens <==> AllCriticalFit(cards, maxTokens)
  {
    hide Active, Tokens, CriticalTokens, Decisions;
    if cards == [] {
      NothingKept(maxTokens);
    } else {
      var n := |cards| - 1;
      assert cards[..n] + [cards[n]] == cards;
      OneMoreCard(cards[..n], cards[n], maxTokens);
      WithinBudgetExactly(cards[..n], maxTokens);
      FitsSnoc(cards, maxTokens);
    }
  }

  lemma NothingKept(maxTokens: int)
    ensures Tokens(Active(Decisions([], maxTokens, false))) == 0 && CriticalTokens([]) == 0
  {
    NoLists();
    NothingSpent();
  }

  lemma FitsSnoc(cards: seq<Card>, maxTokens: int)
    requires cards != []
    ensures var n := |cards| - 1;
            AllCriticalFit(cards, maxTokens) <==> AllCriticalFit(cards[..n], maxTokens) && CriticalFits(cards, maxTokens, n)
  {
    hide Active, Tokens, Decisions;
    var n := |cards| - 1;
    forall i | 0 <= i < n ensures CriticalFits(cards, maxTokens, i) <==> CriticalFits(cards[..n], maxTokens, i) {
      assert cards[..n][..i] == cards[..i] && cards[..n][i] == cards[i];
    }
    hide CriticalFits;
    assert AllCriticalFit(cards[..n], maxTokens) <==> forall i :: 0 <= i < n ==> CriticalFits(cards, maxTokens, i);
  }

  /** What one more card adds to what is spent. */
  lemma OneMoreCard(cards: seq<Card>, c: Card, maxTokens: int)
    ensures CriticalTokens(cards + [c]) >= CriticalTokens(cards)
    ensures var before := Tokens(Active(Decisions(cards, maxTokens, false)));
            Tokens(Active(Decisions(cards + [c], maxTokens, false))) ==
            if c.authorityCritical || (IsOptional(c) && before + c.tokens <= maxTokens) then before + c.tokens else before
  {
    hide Active, Tokens, CriticalTokens, OptionalTokens, Decisions, Put, ListsOf;
    TokensSnoc(cards, c);
    DecideNext(cards, c, maxTokens, false);
    var ds := Decisions(cards, maxTokens, false);
    var reason := Decide(c, Tokens(Active(ds)), maxTokens, false);
    PutTokens(ListsOf(ds), c, reason);
    ListsActive(ds + [Decision(c, reason)]);
  }

  lemma ListsActive(ds: seq<Decision>)
    ensures ListsOf(ds).active == Active(ds)
  {
  }

  /** The whole projection keeps the budget exactly when it does not fail closed and every critical card, in
      sorted order, fits behind what was kept before it. */
  lemma ProjectionWithinBudget(hash: Hash, events: seq<Event>, maxTokens: int)
    ensures var p, cards := Project(hash, events, maxTokens), SortBy(CardLe, CardsOf(hash, events));
            p.selectedTokens <= maxTokens <==> !p.failClosed && AllCriticalFit(cards, maxTokens)
  {
    hide AllCriticalFit, Tokens, CriticalTokens, Active, Decisions, ToRetrieval, ToSupport, ToArchive, OptionalTokens;
    var cards := SortBy(CardLe, CardsOf(hash, events));
    if CriticalTokens(cards) <= maxTokens {
      WithinBudgetExactly(cards, maxTokens);
    } else {
      Spent(cards, maxTokens, true);
    }
  }

  /** A preference, 14 tokens when it is eligible evidence, that is always active or active when relevant. */
  function Preference(id: string, critical: bool): Event {
    Event(id, id, "preference", if critical then "active_if_task_relevant" else "always_active", "answer_evidence",
          true, true, critical, false, false)
  }

  /** Two events and a budget of one of them: the critical card is sorted last and kept all the same, and the
      projection, twice as heavy as allowed, does not fail closed. */
  lemma BudgetExceeded(hash: Hash, a: string, b: string)
    ensures var p := Project(hash, [Preference(a, false), Preference(b, true)], 14);
            !p.failClosed && p.selectedTokens == 28
  {
    var events := [Preference(a, false), Preference(b, true)];
    var x, y := CardOf(hash, events[0]), CardOf(hash, events[1]);
    assert x.tokens == y.tokens == 14 && !x.authorityCritical && y.authorityCritical;
    TwoCards(hash, events[0], events[1]);
    hide CardOf, CardsOf;
    TwoSorted(x, y);
    hide CardLe, SortBy;
    TwoSelected(x, y);
  }

  lemma TwoCards(hash: Hash, a: Event, b: Event)
    requires a.valid && b.valid
    ensures CardsOf(hash, [a, b]) == [CardOf(hash, a), CardOf(hash, b)]
  {
    hide CardOf;
    assert [a, b][..1] == [a] && [a][..0] == [];
    assert CardsOf(hash, [a]) == [CardOf(hash, a)];
  }

  lemma TwoSorted(x: Card, y: Card)
    requires CardLe(x, y)
    ensures SortBy(CardLe, [x, y]) == [x, y]
  {
    hide CardLe;
    assert [x, y][..1] == [x] && [x][..0] == [];
    assert SortBy(CardLe, [x]) == [x];
  }

  lemma TwoSelected(x: Card, y: Card)
    requires !x.authorityCritical && y.authorityCritical && x.budgetClass == AlwaysActive && x.tokens == y.tokens == 14
    ensures var p := ProjectCards([x, y], 14); !p.failClosed && p.selectedTokens == 28
  {
    hide Active, ToRetrieval, ToSupport, ToArchive, Tokens, CriticalTokens, OptionalTokens, Decisions;
    assert [] + [x] == [x] && [x] + [y] == [x, y];
    NothingKept(14);
    TokensSnoc([], x);
    TokensSnoc([x], y);
    OneMoreCard([], x, 14);
    OneMoreCard([x], y, 14);
  }

  /** When all critical cards are sorted first, a projection that does not fail closed is within budget. */
  lemma {:induction false} CriticalFirstWithinBudget(cards: seq<Card>, maxTokens: int)
    requires CriticalTokens(cards) <= maxTokens
    requires forall i, j :: 0 <= i < j < |cards| && cards[j].authorityCritical ==> cards[i].authorityCritical
    ensures Tokens(Active(Decisions(cards, maxTokens, false))) <= maxTokens
  {
    NoLists();
    hide Active, ToRetrieval, ToSupport, ToArchive, Tokens, CriticalTokens, OptionalTokens;
    if cards != [] {
      var n := |cards| - 1;
      var c, front := cards[n], Decisions(cards[..n], maxTokens, false);
      TokensSnoc(cards[..n], c);
      assert cards[..n] + [c] == cards;
      if c.authorityCritical {
        AllCriticalActive(cards, maxTokens);
      } else {
        CriticalFirstWithinBudget(cards[..n], maxTokens);
        var d := Decision(c, Decide(c, Tokens(Active(front)), maxTokens, false));
        ListsSnoc(front, d);
        TokensSnoc(Active(front), c);
        assert Active(front) + [] == Active(front);
      }
    } else {
      NothingSpent();
    }
  }

  lemma {:induction false} AllCriticalActive(cards: seq<Card>, maxTokens: int)
    requires forall i :: 0 <= i < |cards| ==> cards[i].authorityCritical
    ensures Active(Decisions(cards, maxTokens, false)) == cards && Tokens(cards) == CriticalTokens(cards)
  {
    NoLists();
    NothingSpent();
    hide Active, ToRetrieval, ToSupport, ToArchive, Tokens, CriticalTokens, OptionalTokens;
    if cards != [] {
      var n := |cards| - 1;
      AllCriticalActive(cards[..n], maxTokens);
      ListsSnoc(Decisions(cards[..n], maxTokens, false), Decision(cards[n], KeepAuthorityCritical));
      TokensSnoc(cards[..n], cards[n]);
      assert cards[..n] + [cards[n]] == cards;
    }
  }
}
