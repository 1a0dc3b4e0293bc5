/** What publishing one entity does to the graph tables: the statements of `publish_entity_subgraph` in
    brainstack/graph_backend_kuzu.py as functions on tables. */
module GraphPublish {
  import opened Results
  import opened Sequences
  import opened Text

  datatype Entity = Entity(canonicalName: string, normalizedName: string, updatedAt: string)

  datatype StateFields = StateFields(
    attribute: string, value: string, source: string, metadata: string, validFrom: string, validTo: string, isCurrent: bool)

  datatype ConflictFields = ConflictFields(
    attribute: string, currentStateId: int, currentValue: string, candidateValue: string, candidateSource: string,
    metadata: string, happenedAt: string)

  datatype AliasFields = AliasFields(aliasName: string, source: string, metadata: string, updatedAt: string)

  datatype EdgeFields = EdgeFields(relation: string, source: string, metadata: string, createdAt: string, active: bool)

  /** A table row that belongs to an entity. */
  datatype Owned<F> = Owned(entityId: int, fields: F)

  /** One relation; the inferred ones are kept in a table of their own. */
  datatype Edge = Edge(inferred: bool, from: int, to: int, id: int, fields: EdgeFields)

  datatype Tables = Tables(
    entities: map<int, Entity>,
    aliases: map<string, Owned<AliasFields>>,
    states: map<int, Owned<StateFields>>,
    conflicts: map<int, Owned<ConflictFields>>,
    edges: seq<Edge>)

  datatype EntityRef = EntityRef(id: int, entity: Entity)

  /** A row of the snapshot with its key. */
  datatype Keyed<K, F> = Keyed(key: K, fields: F)

  datatype Relation = Relation(target: EntityRef, id: int, fields: EdgeFields)

  datatype Snapshot = Snapshot(
    entity: EntityRef,
    states: seq<Keyed<int, StateFields>>,
    conflicts: seq<Keyed<int, ConflictFields>>,
    aliases: seq<Keyed<string, AliasFields>>,
    relations: seq<Relation>,
    inferred: seq<Relation>)

  // ----- the statements -----

  /** `MERGE (e:Entity {id}) SET ...`. */
  function EnsureEntity(t: Tables, e: EntityRef): Tables {
    t.(entities := t.entities[e.id := e.entity])
  }

  /** `MATCH ... WHERE entity_id = $e AND NOT id IN $keep DETACH DELETE`. */
  function DeleteRows<K(==), F(==)>(rows: map<K, Owned<F>>, e: int, keep: set<K>): map<K, Owned<F>> {
    map k | k in rows && (rows[k].entityId != e || k in keep) :: rows[k]
  }

  function KeysOf<K(==), F(==)>(rows: seq<Keyed<K, F>>): set<K> {
    set r | r in rows :: r.key
  }

  /** `MERGE (row {key}) SET row.entity_id = $e, ...` for each row in turn. */
  function MergeRows<K(==), F(==)>(rows: map<K, Owned<F>>, e: int, news: seq<Keyed<K, F>>): map<K, Owned<F>> {
    if news == [] then rows
    else
      var n := |news| - 1;
      MergeRows(rows, e, news[..n])[news[n].key := Owned(e, news[n].fields)]
  }

  /** Deleting the entity's rows that the snapshot does not list, then merging the ones it does. */
  function ReplaceRows<K(==), F(==)>(rows: map<K, Owned<F>>, e: int, news: seq<Keyed<K, F>>): map<K, Owned<F>> {
    MergeRows(DeleteRows(rows, e, KeysOf(news)), e, news)
  }

  /** `MATCH (e)-[r]->() DELETE r` on one of the two relation tables. */
  function DeleteOutgoing(edges: seq<Edge>, e: int, inferred: bool): seq<Edge> {
    if edges == [] then []
    else
      var n := |edges| - 1;
      DeleteOutgoing(edges[..n], e, inferred)
      + if edges[n].from == e && edges[n].inferred == inferred then [] else [edges[n]]
  }

  /** `MATCH (a {id: $from}), (b {id: $to}) CREATE (a)-[r]->(b)`: nothing without both endpoints. */
  function CreateEdge(t: Tables, e: int, r: Relation, inferred: bool): Tables {
    if e in t.entities && r.target.id in t.entities then
      t.(edges := t.edges + [Edge(inferred, e, r.target.id, r.id, r.fields)])
    else t
  }

  function AddRelations(t: Tables, e: int, rs: seq<Relation>, inferred: bool): Tables {
    if rs == [] then t
    else
      var n := |rs| - 1;
      CreateEdge(EnsureEntity(AddRelations(t, e, rs[..n], inferred), rs[n].target), e, rs[n], inferred)
  }

  /** Aliases without text are skipped. */
  function NamedAliases(aliases: seq<Keyed<string, AliasFields>>): seq<Keyed<string, AliasFields>> {
    if aliases == [] then []
    else
      var n := |aliases| - 1;
      NamedAliases(aliases[..n]) + if Strip(aliases[n].key) != "" then [aliases[n]] else []
  }

  /** The tables just before the relations of the snapshot are created. */
  function WithRows(t: Tables, s: Snapshot): Tables {
    var e := s.entity.id;
    EnsureEntity(t, s.entity).(
      states := ReplaceRows(t.states, e, s.states),
      conflicts := ReplaceRows(t.conflicts, e, s.conflicts),
      aliases := ReplaceRows(t.aliases, e, NamedAliases(s.aliases)),
      edges := DeleteOutgoing(DeleteOutgoing(t.edges, e, false), e, true))
  }

  /** The tables after a committed publish. */
  function Published(t: Tables, s: Snapshot): Tables {
    AddRelations(AddRelations(WithRows(t, s), s.entity.id, s.relations, false), s.entity.id, s.inferred, true)
  }

  // ----- one keyed table -----

  /** The snapshot's rows as a table; a repeated key keeps its last row. */
  function RowTable<K(==), F(==)>(e: int, news: seq<Keyed<K, F>>): map<K, Owned<F>> {
    MergeRows(map[], e, news)
  }

  function RowsOf<K(==), F(==)>(rows: map<K, Owned<F>>, e: int): map<K, Owned<F>> {
    map k | k in rows && rows[k].entityId == e :: rows[k]
  }

  function RowsOfOthers<K(==), F(==)>(rows: map<K, Owned<F>>, e: int): map<K, Owned<F>> {
    map k | k in rows && rows[k].entityId != e :: rows[k]
  }

  lemma {:induction false} MergeIsOverride<K, F>(rows: map<K, Owned<F>>, e: int, news: seq<Keyed<K, F>>)
    ensures MergeRows(rows, e, news) == rows + RowTable(e, news)
    ensures RowTable(e, news).Keys == KeysOf(news)
    ensures forall k :: k in RowTable(e, news) ==> RowTable(e, news)[k].entityId == e
  {
    if news != [] {
      var n := |news| - 1;
      MergeIsOverride(rows, e, news[..n]);
      assert forall r :: r in news <==> r in news[..n] || r == news[n];
      assert KeysOf(news) == KeysOf(news[..n]) + {news[n].key};
    } else {
      assert rows + map[] == rows;
    }
  }

  /** Publishing replaces the entity's rows exactly: afterwards they are the snapshot's rows, whatever was
      there; every other entity keeps its rows but those whose key the snapshot claims. */
  lemma ReplaceExact<K, F>(rows: map<K, Owned<F>>, e: int, news: seq<Keyed<K, F>>)
    ensures ReplaceRows(rows, e, news) == RowsOfOthers(rows, e) + RowTable(e, news)
    ensures RowsOf(ReplaceRows(rows, e, news), e) == RowTable(e, news)
    ensures forall f :: f != e ==> RowsOf(ReplaceRows(rows, e, news), f) == RowsOf(rows, f) - KeysOf(news)
  {
    MergeIsOverride(DeleteRows(rows, e, KeysOf(news)), e, news);
    hide KeysOf, MergeRows, RowTable;
  }

  /** Another entity's rows survive exactly when the snapshot claims none of their keys. */
  lemma OthersKept<K, F>(rows: map<K, Owned<F>>, e: int, news: seq<Keyed<K, F>>, f: int)
    requires f != e
    ensures RowsOf(ReplaceRows(rows, e, news), f) == RowsOf(rows, f) <==> RowsOf(rows, f).Keys !! KeysOf(news)
  {
    ReplaceExact(rows, e, news);
    hide KeysOf, ReplaceRows, RowTable;
    if RowsOf(ReplaceRows(rows, e, news), f) == RowsOf(rows, f) {
      forall k | k in RowsOf(rows, f).Keys ensures k !in KeysOf(news) {
        assert k in RowsOf(ReplaceRows(rows, e, news), f);
      }
    }
  }

  lemma ReplaceTwice<K, F>(rows: map<K, Owned<F>>, e: int, news: seq<Keyed<K, F>>)
    ensures ReplaceRows(ReplaceRows(rows, e, news), e, news) == ReplaceRows(rows, e, news)
  {
    ReplaceExact(rows, e, news);
    ReplaceExact(ReplaceRows(rows, e, news), e, news);
    MergeIsOverride(rows, e, news);
    hide KeysOf, ReplaceRows, RowTable, MergeRows;
    var once := RowsOfOthers(rows, e) + RowTable(e, news);
    assert RowsOfOthers(once, e) + RowTable(e, news) == once;
  }

  // ----- relations -----

  function EdgesFrom(edges: seq<Edge>, e: int): seq<Edge> {
    if edges == [] then []
    else EdgesFrom(edges[..|edges| - 1], e) + if edges[|edges| - 1].from == e then [edges[|edges| - 1]] else []
  }

  function EdgesOfOthers(edges: seq<Edge>, e: int): seq<Edge> {
    if edges == [] then []
    else EdgesOfOthers(edges[..|edges| - 1], e) + if edges[|edges| - 1].from == e then [] else [edges[|edges| - 1]]
  }

  function NewEdges(e: int, rs: seq<Relation>, inferred: bool): (es: seq<Edge>)
    ensures |es| == |rs|
  {
    seq(|rs|, i requires 0 <= i < |rs| => Edge(inferred, e, rs[i].target.id, rs[i].id, rs[i].fields))
  }

  function Targets(rs: seq<Relation>): (es: seq<EntityRef>)
    ensures |es| == |rs|
  {
    seq(|rs|, i requires 0 <= i < |rs| => rs[i].target)
  }

  function EnsureAll(entities: map<int, Entity>, es: seq<EntityRef>): map<int, Entity> {
    if es == [] then entities
    else EnsureAll(entities, es[..|es| - 1])[es[|es| - 1].id := es[|es| - 1].entity]
  }

  lemma {:induction false} DeleteBoth(edges: seq<Edge>, e: int)
    ensures DeleteOutgoing(DeleteOutgoing(edges, e, false), e, true) == EdgesOfOthers(edges, e)
  {
    if edges != [] {
      var n := |edges| - 1;
      DeleteBoth(edges[..n], e);
      var once := DeleteOutgoing(edges[..n], e, false);
      assert (once + [edges[n]])[..|once|] == once;
      assert once + [] == once;
    }
  }

  /** Both endpoints exist, so every relation of the list becomes one edge. */
  lemma {:induction false} AddedRelations(t: Tables, e: int, rs: seq<Relation>, inferred: bool)
    requires e in t.entities
    ensures var r := AddRelations(t, e, rs, inferred);
            && r == t.(entities := EnsureAll(t.entities, Targets(rs)), edges := t.edges + NewEdges(e, rs, inferred))
            && e in r.entities
  {
    if rs == [] {
      assert t.edges + NewEdges(e, rs, inferred) == t.edges;
    } else {
      var n := |rs| - 1;
      AddedRelations(t, e, rs[..n], inferred);
      LastRelation(e, rs, inferred);
      hide NewEdges, Targets;
      AppendOne(t.edges, Edge(inferred, e, rs[n].target.id, rs[n].id, rs[n].fields), []);
      AppendMany(t.edges, NewEdges(e, rs[..n], inferred), [Edge(inferred, e, rs[n].target.id, rs[n].id, rs[n].fields)]);
    }
  }

  lemma LastRelation(e: int, rs: seq<Relation>, inferred: bool)
    requires rs != []
    ensures var n := |rs| - 1;
            && Targets(rs) == Targets(rs[..n]) + [rs[n].target] && Targets(rs)[..n] == Targets(rs[..n])
            && NewEdges(e, rs, inferred) == NewEdges(e, rs[..n], inferred) + [Edge(inferred, e, rs[n].target.id, rs[n].id, rs[n].fields)]
  {
  }

  /** All edges the snapshot stands for. */
  function SnapshotEdges(s: Snapshot): seq<Edge> {
    NewEdges(s.entity.id, s.relations, false) + NewEdges(s.entity.id, s.inferred, true)
  }

  /** All entities the snapshot names, in the order in which they are written. */
  function SnapshotEntities(s: Snapshot): seq<EntityRef> {
    [s.entity] + Targets(s.relations) + Targets(s.inferred)
  }

  lemma {:induction false} EnsureAllAppend(entities: map<int, Entity>, a: seq<EntityRef>, b: seq<EntityRef>)
    ensures EnsureAll(entities, a + b) == EnsureAll(EnsureAll(entities, a), b)
  {
    if b == [] {
      assert a + b == a;
    } else {
      EnsureAllAppend(entities, a, b[..|b| - 1]);
      assert (a + b)[..|a + b| - 1] == a + b[..|b| - 1];
    }
  }

  /** The whole effect of a committed publish, table by table. */
  lemma PublishedTables(t: Tables, s: Snapshot)
    ensures var e := s.entity.id;
            Published(t, s) == Tables(
              EnsureAll(t.entities, SnapshotEntities(s)),
              ReplaceRows(t.aliases, e, NamedAliases(s.aliases)),
              ReplaceRows(t.states, e, s.states),
              ReplaceRows(t.conflicts, e, s.conflicts),
              EdgesOfOthers(t.edges, e) + SnapshotEdges(s))
  {
    hide ReplaceRows, NamedAliases;
    var e := s.entity.id;
    DeleteBoth(t.edges, e);
    hide DeleteOutgoing, NewEdges, Targets;
    var w := WithRows(t, s);
    AddedRelations(w, e, s.relations, false);
    var w1 := AddRelations(w, e, s.relations, false);
    AddedRelations(w1, e, s.inferred, true);
    AppendMany(EdgesOfOthers(t.edges, e), NewEdges(e, s.relations, false), NewEdges(e, s.inferred, true));
    EntitiesInOrder(t.entities, s);
  }

  lemma EntitiesInOrder(entities: map<int, Entity>, s: Snapshot)
    ensures EnsureAll(EnsureAll(entities[s.entity.id := s.entity.entity], Targets(s.relations)), Targets(s.inferred))
            == EnsureAll(entities, SnapshotEntities(s))
  {
    hide Targets;
    assert [s.entity][..0] == [];
    assert EnsureAll(entities, [s.entity]) == entities[s.entity.id := s.entity.entity];
    EnsureAllAppend(entities, [s.entity], Targets(s.relations));
    EnsureAllAppend(entities, [s.entity] + Targets(s.relations), Targets(s.inferred));
  }

  // ----- exact replacement -----

  lemma {:induction false} EdgesAppend(a: seq<Edge>, b: seq<Edge>, e: int)
    ensures EdgesFrom(a + b, e) == EdgesFrom(a, e) + EdgesFrom(b, e)
    ensures EdgesOfOthers(a + b, e) == EdgesOfOthers(a, e) + EdgesOfOthers(b, e)
  {
    hide EdgesFrom, EdgesOfOthers;
    if b == [] {
      assert a + b == a;
      EdgesEmpty(e);
    } else {
      var n := |b| - 1;
      EdgesAppend(a, b[..n], e);
      assert a + b == (a + b[..n]) + [b[n]] && b == b[..n] + [b[n]];
      EdgesSnoc(a + b[..n], b[n], e);
      EdgesSnoc(b[..n], b[n], e);
    }
  }

  lemma EdgesEmpty(e: int)
    ensures EdgesFrom([], e) == [] && EdgesOfOthers([], e) == []
  {
  }

  lemma EdgesSnoc(edges: seq<Edge>, x: Edge, e: int)
    ensures EdgesFrom(edges + [x], e) == if x.from == e then EdgesFrom(edges, e) + [x] else EdgesFrom(edges, e)
    ensures EdgesOfOthers(edges + [x], e) == if x.from == e then EdgesOfOthers(edges, e) else EdgesOfOthers(edges, e) + [x]
  {
    assert (edges + [x])[..|edges|] == edges;
  }

  ghost predicate AllFrom(edges: seq<Edge>, e: int) {
    forall x :: x in edges ==> x.from == e
  }

  lemma {:induction false} EdgesAllFrom(edges: seq<Edge>, e: int, f: int)
    requires AllFrom(edges, e)
    ensures EdgesFrom(edges, f) == if f == e then edges else []
    ensures EdgesOfOthers(edges, f) == if f == e then [] else edges
  {
    if edges != [] {
      var n := |edges| - 1;
      assert edges[n] in edges && edges[..n] + [edges[n]] == edges;
      EdgesAllFrom(edges[..n], e, f);
    }
  }

  lemma {:induction false} EdgesSplit(edges: seq<Edge>, e: int, f: int)
    ensures EdgesFrom(EdgesOfOthers(edges, e), f) == if f == e then [] else EdgesFrom(edges, f)
    ensures EdgesOfOthers(EdgesOfOthers(edges, e), e) == EdgesOfOthers(edges, e)
  {
    if edges != [] {
      var n := |edges| - 1;
      EdgesSplit(edges[..n], e, f);
      var others := EdgesOfOthers(edges[..n], e);
      assert (others + [edges[n]])[..|others|] == others;
      assert others + [] == others;
    }
  }

  lemma SnapshotEdgesFrom(s: Snapshot)
    ensures AllFrom(SnapshotEdges(s), s.entity.id)
  {
  }

  /** After a committed publish the entity's states, conflicts, aliases and outgoing relations are exactly
      the snapshot's; other entities keep their relations, and of their rows all but those whose key the
      snapshot claims. */
  lemma PublishExact(t: Tables, s: Snapshot)
    ensures var e, r := s.entity.id, Published(t, s);
            && RowsOf(r.states, e) == RowTable(e, s.states)
            && RowsOf(r.conflicts, e) == RowTable(e, s.conflicts)
            && RowsOf(r.aliases, e) == RowTable(e, NamedAliases(s.aliases))
            && EdgesFrom(r.edges, e) == SnapshotEdges(s)
            && forall f :: f != e ==>
                 && RowsOf(r.states, f) == RowsOf(t.states, f) - KeysOf(s.states)
                 && RowsOf(r.conflicts, f) == RowsOf(t.conflicts, f) - KeysOf(s.conflicts)
                 && RowsOf(r.aliases, f) == RowsOf(t.aliases, f) - KeysOf(NamedAliases(s.aliases))
                 && EdgesFrom(r.edges, f) == EdgesFrom(t.edges, f)
  {
    var e := s.entity.id;
    PublishedTables(t, s);
    ReplaceExact(t.states, e, s.states);
    ReplaceExact(t.conflicts, e, s.conflicts);
    ReplaceExact(t.aliases, e, NamedAliases(s.aliases));
    hide ReplaceRows, NamedAliases, RowTable, KeysOf, RowsOf, SnapshotEdges, Published;
    forall f ensures EdgesFrom(EdgesOfOthers(t.edges, e) + SnapshotEdges(s), f) ==
                     if f == e then SnapshotEdges(s) else EdgesFrom(t.edges, f)
    {
      PublishedEdges(t.edges, s, f);
    }
  }

  lemma PublishedEdges(edges: seq<Edge>, s: Snapshot, f: int)
    ensures var e := s.entity.id;
            EdgesFrom(EdgesOfOthers(edges, e) + SnapshotEdges(s), f) ==
            if f == e then SnapshotEdges(s) else EdgesFrom(edges, f)
  {
    var e := s.entity.id;
    SnapshotEdgesFrom(s);
    hide SnapshotEdges;
    EdgesAppend(EdgesOfOthers(edges, e), SnapshotEdges(s), f);
    EdgesSplit(edges, e, f);
    EdgesAllFrom(SnapshotEdges(s), e, f);
  }

  // ----- what each row and relation holds -----

  /** No later row of the list has the same key. */
  ghost predicate LastOf<K, F>(news: seq<Keyed<K, F>>, i: int) {
    0 <= i < |news| && forall j :: i < j < |news| ==> news[j].key != news[i].key
  }

  /** The entity's rows are those of the list, each under its key with its own fields; of rows with one key the
      last one counts. */
  ghost predicate RowsAre<K(!new), F>(rows: map<K, Owned<F>>, e: int, news: seq<Keyed<K, F>>) {
    && (forall i :: LastOf(news, i) ==> news[i].key in rows && rows[news[i].key] == Owned(e, news[i].fields))
    && (forall k :: k in rows && rows[k].entityId == e ==> exists i :: LastOf(news, i) && news[i].key == k)
  }

  lemma LastOfSnoc<K, F>(front: seq<Keyed<K, F>>, x: Keyed<K, F>)
    ensures forall i :: LastOf(front + [x], i) <==> i == |front| || (LastOf(front, i) && front[i].key != x.key)
  {
    var news := front + [x];
    forall i ensures LastOf(news, i) <==> i == |front| || (LastOf(front, i) && front[i].key != x.key) {
      if 0 <= i < |front| {
        assert news[i] == front[i] && news[|front|] == x;
        assert forall j :: i < j < |front| ==> news[j] == front[j];
      }
    }
  }

  lemma {:induction false} TableRowsAre<K(!new), F>(e: int, news: seq<Keyed<K, F>>)
    ensures RowsAre(RowTable(e, news), e, news)
  {
    if news == [] {
      hide LastOf;
      NoneLast<K, F>();
    } else {
      var n := |news| - 1;
      var front, x := news[..n], news[n];
      TableRowsAre(e, front);
      LastOfSnoc(front, x);
      assert front + [x] == news;
      TableSnoc(e, front, x);
    }
  }

  lemma NoneLast<K, F>()
    ensures forall i :: !LastOf<K, F>([], i)
  {
  }

  lemma TableSnoc<K(!new), F>(e: int, front: seq<Keyed<K, F>>, x: Keyed<K, F>)
    requires RowsAre(RowTable(e, front), e, front)
    requires forall i :: LastOf(front + [x], i) <==> i == |front| || (LastOf(front, i) && front[i].key != x.key)
    ensures RowsAre(RowTable(e, front + [x]), e, front + [x])
  {
    var news := front + [x];
    assert news[..|front|] == front && news[|front|] == x;
    var table := RowTable(e, news);
    assert table == RowTable(e, front)[x.key := Owned(e, x.fields)];
    MergeIsOverride(map[], e, front);
    hide LastOf, RowTable, KeysOf;
    forall i | LastOf(news, i) ensures news[i].key in table && table[news[i].key] == Owned(e, news[i].fields) {
      assert i != |front| ==> news[i] == front[i];
    }
    forall k | k in table && table[k].entityId == e ensures exists i :: LastOf(news, i) && news[i].key == k {
      if k == x.key {
        assert LastOf(news, |front|);
      } else {
        var i :| LastOf(front, i) && front[i].key == k;
        assert LastOf(news, i) && news[i] == front[i];
      }
    }
  }

  lemma OwnRowsAre<K(!new), F>(rows: map<K, Owned<F>>, e: int, news: seq<Keyed<K, F>>)
    requires RowsOf(rows, e) == RowTable(e, news)
    ensures RowsAre(rows, e, news)
  {
    TableRowsAre(e, news);
    hide RowTable, LastOf;
    assert forall k :: k in RowsOf(rows, e) <==> k in rows && rows[k].entityId == e;
  }

  predicate HasText(alias: Keyed<string, AliasFields>) {
    Strip(alias.key) != ""
  }

  lemma {:induction false} NamedExactly(aliases: seq<Keyed<string, AliasFields>>) returns (at: seq<nat>)
    ensures Picks(aliases, HasText, Itself<Keyed<string, AliasFields>>, NamedAliases(aliases), at)
  {
    hide Strip, Picks;
    if aliases == [] {
      at := [];
      PicksNothing<Keyed<string, AliasFields>, Keyed<string, AliasFields>>(HasText, Itself<Keyed<string, AliasFields>>);
    } else {
      var n := |aliases| - 1;
      var front := NamedExactly(aliases[..n]);
      PicksSnoc(aliases[..n], aliases[n], HasText, Itself<Keyed<string, AliasFields>>, NamedAliases(aliases[..n]), front);
      assert aliases[..n] + [aliases[n]] == aliases && Itself(aliases[n]) == aliases[n];
      assert NamedAliases(aliases[..n]) + [] == NamedAliases(aliases[..n]);
      at := if HasText(aliases[n]) then front + [n] else front;
    }
  }

  /** No later entity of the list has the same id. */
  ghost predicate LastRef(es: seq<EntityRef>, i: int) {
    0 <= i < |es| && forall j :: i < j < |es| ==> es[j].id != es[i].id
  }

  /** Of what is written for one id the last counts, and other entities are as before. */
  ghost predicate EntitiesAre(before: map<int, Entity>, after: map<int, Entity>, es: seq<EntityRef>) {
    && (forall i :: 0 <= i < |es| && LastRef(es, i) ==> es[i].id in after && after[es[i].id] == es[i].entity)
    && (forall id :: Unnamed(es, id) ==> (id in after <==> id in before) && (id in after ==> after[id] == before[id]))
  }

  ghost predicate Unnamed(es: seq<EntityRef>, id: int) {
    forall i :: 0 <= i < |es| ==> es[i].id != id
  }

  lemma {:induction false} EnsuredExactly(entities: map<int, Entity>, es: seq<EntityRef>)
    ensures EntitiesAre(entities, EnsureAll(entities, es), es)
  {
    hide EnsureAll, EntitiesAre;
    if es == [] {
      NothingEnsured(entities);
    } else {
      var n := |es| - 1;
      EnsuredExactly(entities, es[..n]);
      EnsuredSnoc(entities, EnsureAll(entities, es[..n]), es[..n], es[n]);
      assert es[..n] + [es[n]] == es;
      EnsureLast(entities, es);
    }
  }

  lemma NothingEnsured(entities: map<int, Entity>)
    ensures EntitiesAre(entities, EnsureAll(entities, []), [])
  {
  }

  lemma EnsureLast(entities: map<int, Entity>, es: seq<EntityRef>)
    requires es != []
    ensures var n := |es| - 1; EnsureAll(entities, es) == EnsureAll(entities, es[..n])[es[n].id := es[n].entity]
  {
  }

  lemma LastRefSnoc(es: seq<EntityRef>, x: EntityRef)
    ensures forall i :: LastRef(es + [x], i) ==> i == |es| || (LastRef(es, i) && es[i].id != x.id)
  {
    var all := es + [x];
    forall i | LastRef(all, i) && i != |es| ensures LastRef(es, i) && es[i].id != x.id {
      assert all[i] == es[i] && all[|es|] == x;
      assert forall j :: i < j < |es| ==> all[j] == es[j];
    }
  }

  lemma EnsuredSnoc(before: map<int, Entity>, after: map<int, Entity>, es: seq<EntityRef>, x: EntityRef)
    requires EntitiesAre(before, after, es)
    ensures EntitiesAre(before, after[x.id := x.entity], es + [x])
  {
    var all, after' := es + [x], after[x.id := x.entity];
    LastRefSnoc(es, x);
    hide LastRef;
    forall i | 0 <= i < |all| && LastRef(all, i) ensures all[i].id in after' && after'[all[i].id] == all[i].entity {
      assert i != |es| ==> all[i] == es[i];
    }
    forall id | Unnamed(all, id)
      ensures (id in after' <==> id in before) && (id in after' ==> after'[id] == before[id])
    {
      assert all[|es|] == x && forall i :: 0 <= i < |es| ==> all[i] == es[i];
      assert Unnamed(es, id);
    }
  }

  ghost predicate NotFrom(e: int, x: Edge) {
    x.from != e
  }

  ghost function FromOthers(e: int): Edge -> bool {
    x => NotFrom(e, x)
  }

  lemma {:induction false} OthersExactly(edges: seq<Edge>, e: int) returns (at: seq<nat>)
    ensures Picks(edges, FromOthers(e), Itself<Edge>, EdgesOfOthers(edges, e), at)
  {
    hide Picks;
    if edges == [] {
      at := [];
      PicksNothing<Edge, Edge>(FromOthers(e), Itself<Edge>);
    } else {
      var n := |edges| - 1;
      var front := OthersExactly(edges[..n], e);
      PicksSnoc(edges[..n], edges[n], FromOthers(e), Itself<Edge>, EdgesOfOthers(edges[..n], e), front);
      assert edges[..n] + [edges[n]] == edges && Itself(edges[n]) == edges[n];
      assert EdgesOfOthers(edges[..n], e) + [] == EdgesOfOthers(edges[..n], e);
      at := if edges[n].from != e then front + [n] else front;
    }
  }

  /** The entities that are written: the snapshot's own, and the target of each relation in turn. */
  ghost predicate Mentions(s: Snapshot, es: seq<EntityRef>) {
    && |es| == 1 + |s.relations| + |s.inferred| && es[0] == s.entity
    && (forall i :: 0 <= i < |s.relations| ==> es[1 + i] == s.relations[i].target)
    && (forall i :: 0 <= i < |s.inferred| ==> es[1 + |s.relations| + i] == s.inferred[i].target)
  }

  /** One relation from the entity for each of the snapshot, with its own target, id and fields. */
  ghost predicate EdgesAre(s: Snapshot, edges: seq<Edge>) {
    var e := s.entity.id;
    && |edges| == |s.relations| + |s.inferred|
    && (forall i :: 0 <= i < |s.relations| ==>
          var x := s.relations[i]; edges[i] == Edge(false, e, x.target.id, x.id, x.fields))
    && (forall i :: 0 <= i < |s.inferred| ==>
          var x := s.inferred[i]; edges[|s.relations| + i] == Edge(true, e, x.target.id, x.id, x.fields))
  }

  /** The tables `r` after `t` in the snapshot's own terms. */
  ghost predicate Holds(t: Tables, r: Tables, s: Snapshot) {
    var e := s.entity.id;
    && RowsAre(r.states, e, s.states) && RowsAre(r.conflicts, e, s.conflicts)
    && (exists named, at :: Picks(s.aliases, HasText, Itself<Keyed<string, AliasFields>>, named, at) && RowsAre(r.aliases, e, named))
    && (exists es :: Mentions(s, es) && EntitiesAre(t.entities, r.entities, es))
    && (exists others, at, new' :: Picks(t.edges, FromOthers(e), Itself<Edge>, others, at) && EdgesAre(s, new') && r.edges == others + new')
  }

  /** A committed publish stores what the snapshot says, row by row and relation by relation. */
  lemma PublishedHolds(t: Tables, s: Snapshot)
    ensures Holds(t, Published(t, s), s)
  {
    hide Published, RowsAre, EntitiesAre, Picks, Mentions, EdgesAre;
    PublishedRows(t, s);
    var at := NamedExactly(s.aliases);
    PublishedRest(t, s);
    var kept := OthersExactly(t.edges, s.entity.id);
    hide NamedAliases, EdgesOfOthers, SnapshotEntities, SnapshotEdges;
    assert Picks(s.aliases, HasText, Itself<Keyed<string, AliasFields>>, NamedAliases(s.aliases), at);
    assert Picks(t.edges, FromOthers(s.entity.id), Itself<Edge>, EdgesOfOthers(t.edges, s.entity.id), kept);
  }

  lemma PublishedRows(t: Tables, s: Snapshot)
    ensures var e, r := s.entity.id, Published(t, s);
            RowsAre(r.states, e, s.states) && RowsAre(r.conflicts, e, s.conflicts) && RowsAre(r.aliases, e, NamedAliases(s.aliases))
  {
    hide RowsAre, Published, RowTable, RowsOf, NamedAliases, KeysOf, EdgesFrom, SnapshotEdges;
    var e, r := s.entity.id, Published(t, s);
    PublishExact(t, s);
    OwnRowsAre(r.states, e, s.states);
    OwnRowsAre(r.conflicts, e, s.conflicts);
    OwnRowsAre(r.aliases, e, NamedAliases(s.aliases));
  }

  lemma PublishedRest(t: Tables, s: Snapshot)
    ensures var r := Published(t, s);
            && EntitiesAre(t.entities, r.entities, SnapshotEntities(s)) && Mentions(s, SnapshotEntities(s))
            && r.edges == EdgesOfOthers(t.edges, s.entity.id) + SnapshotEdges(s) && EdgesAre(s, SnapshotEdges(s))
  {
    SnapshotLists(s);
    hide EntitiesAre, Mentions, EdgesAre, Published, ReplaceRows, SnapshotEdges, SnapshotEntities, EnsureAll, EdgesOfOthers;
    PublishedTables(t, s);
    EnsuredExactly(t.entities, SnapshotEntities(s));
  }

  lemma SnapshotLists(s: Snapshot)
    ensures Mentions(s, SnapshotEntities(s)) && EdgesAre(s, SnapshotEdges(s))
  {
  }

  lemma {:induction false} EnsureAllOverride(entities: map<int, Entity>, es: seq<EntityRef>)
    ensures EnsureAll(entities, es) == entities + EnsureAll(map[], es)
    ensures forall x :: x in es ==> x.id in EnsureAll(entities, es)
  {
    if es != [] {
      EnsureAllOverride(entities, es[..|es| - 1]);
      forall x | x in es ensures x.id in EnsureAll(entities, es) {
        assert x in es[..|es| - 1] || x == es[|es| - 1];
      }
    }
  }

  /** Publishing the same snapshot twice is publishing it once, repeated keys or not. */
  lemma PublishTwice(t: Tables, s: Snapshot)
    ensures Published(Published(t, s), s) == Published(t, s)
  {
    var e := s.entity.id;
    PublishedTables(t, s);
    PublishedTables(Published(t, s), s);
    ReplaceTwice(t.states, e, s.states);
    ReplaceTwice(t.conflicts, e, s.conflicts);
    ReplaceTwice(t.aliases, e, NamedAliases(s.aliases));
    hide ReplaceRows, NamedAliases, Published;
    EnsureAllOverride(t.entities, SnapshotEntities(s));
    EnsureAllOverride(EnsureAll(t.entities, SnapshotEntities(s)), SnapshotEntities(s));
    hide EnsureAll, SnapshotEntities;
    EdgesTwice(t.edges, s);
  }

  lemma EdgesTwice(edges: seq<Edge>, s: Snapshot)
    ensures var e := s.entity.id;
            var once := EdgesOfOthers(edges, e) + SnapshotEdges(s);
            EdgesOfOthers(once, e) + SnapshotEdges(s) == once
  {
    var e := s.entity.id;
    SnapshotEdgesFrom(s);
    hide SnapshotEdges;
    EdgesAppend(EdgesOfOthers(edges, e), SnapshotEdges(s), e);
    EdgesSplit(edges, e, e);
    EdgesAllFrom(SnapshotEdges(s), e, e);
    assert EdgesOfOthers(edges, e) + [] == EdgesOfOthers(edges, e);
  }

  ghost predicate EndpointsExist(t: Tables) {
    forall x :: x in t.edges ==> x.from in t.entities && x.to in t.entities
  }

  lemma {:induction false} OthersSubset(edges: seq<Edge>, e: int)
    ensures forall x :: x in EdgesOfOthers(edges, e) ==> x in edges
  {
    if edges != [] {
      OthersSubset(edges[..|edges| - 1], e);
    }
  }

  /** Every edge keeps both its endpoints, and no entity is ever dropped. */
  lemma PublishKeepsEndpoints(t: Tables, s: Snapshot)
    requires EndpointsExist(t)
    ensures EndpointsExist(Published(t, s)) && t.entities.Keys <= Published(t, s).entities.Keys
  {
    var e := s.entity.id;
    PublishedTables(t, s);
    hide Published, ReplaceRows, NamedAliases;
    EnsureAllOverride(t.entities, SnapshotEntities(s));
    OthersSubset(t.edges, e);
    var all := EnsureAll(t.entities, SnapshotEntities(s));
    forall x | x in SnapshotEdges(s) ensures x.from in all && x.to in all {
      SnapshotEdgeEndpoints(s, x);
    }
  }

  lemma SnapshotEdgeEndpoints(s: Snapshot, x: Edge)
    requires x in SnapshotEdges(s)
    ensures s.entity in SnapshotEntities(s) && x.from == s.entity.id
    ensures exists r :: r in SnapshotEntities(s) && r.id == x.to
  {
    var a, b := s.relations, s.inferred;
    var es := SnapshotEntities(s);
    assert es[0] == s.entity;
    var i :| 0 <= i < |SnapshotEdges(s)| && SnapshotEdges(s)[i] == x;
    if i < |a| {
      assert es[i + 1] == Targets(a)[i] == a[i].target;
    } else {
      assert es[i + 1] == Targets(b)[i - |a|] == b[i - |a|].target;
    }
  }

  // ----- any run of publishes -----

  datatype Publish = Publish(snapshot: Snapshot, committed: bool)

  const NO_TABLES := Tables(map[], map[], map[], map[], [])

  /** The tables after a run; a publish that was not committed leaves them as they were. */
  function AfterRun(run: seq<Publish>): Tables {
    if run == [] then NO_TABLES
    else
      var t, p := AfterRun(run[..|run| - 1]), run[|run| - 1];
      if p.committed then Published(t, p.snapshot) else t
  }

  /** The last committed snapshot of an entity. */
  function Latest(run: seq<Publish>, e: int): Option<Snapshot> {
    if run == [] then None
    else
      var p := run[|run| - 1];
      if p.committed && p.snapshot.entity.id == e then Some(p.snapshot) else Latest(run[..|run| - 1], e)
  }

  /** Keys of the three keyed tables. */
  datatype Keys = Keys(states: set<int>, conflicts: set<int>, aliases: set<string>)

  function KeysIn(s: Snapshot): Keys {
    Keys(KeysOf(s.states), KeysOf(s.conflicts), KeysOf(NamedAliases(s.aliases)))
  }

  function Union(a: Keys, b: Keys): Keys {
    Keys(a.states + b.states, a.conflicts + b.conflicts, a.aliases + b.aliases)
  }

  /** The keys that committed publishes of other entities have claimed since the entity's own last one. */
  function ClaimedSince(run: seq<Publish>, e: int): Keys {
    if run == [] then Keys({}, {}, {})
    else
      var before, p := ClaimedSince(run[..|run| - 1], e), run[|run| - 1];
      if !p.committed then before
      else if p.snapshot.entity.id == e then Keys({}, {}, {})
      else Union(before, KeysIn(p.snapshot))
  }

  // The rows and relations of the entity's last committed snapshot, none if there is no such snapshot.

  function LatestStates(run: seq<Publish>, e: int): map<int, Owned<StateFields>> {
    if Latest(run, e).Some? then RowTable(e, Latest(run, e).value.states) else map[]
  }

  function LatestConflicts(run: seq<Publish>, e: int): map<int, Owned<ConflictFields>> {
    if Latest(run, e).Some? then RowTable(e, Latest(run, e).value.conflicts) else map[]
  }

  function LatestAliases(run: seq<Publish>, e: int): map<string, Owned<AliasFields>> {
    if Latest(run, e).Some? then RowTable(e, NamedAliases(Latest(run, e).value.aliases)) else map[]
  }

  function LatestEdges(run: seq<Publish>, e: int): seq<Edge> {
    if Latest(run, e).Some? then SnapshotEdges(Latest(run, e).value) else []
  }

  /** Over any run of publishes, committed or not, the tables show for every entity its last committed
      snapshot: all its relations, and its rows but those whose key another entity has claimed since. */
  lemma {:induction false} RunShowsUnclaimed(run: seq<Publish>, e: int)
    ensures var t, claimed := AfterRun(run), ClaimedSince(run, e);
            && RowsOf(t.states, e) == LatestStates(run, e) - claimed.states
            && RowsOf(t.conflicts, e) == LatestConflicts(run, e) - claimed.conflicts
            && RowsOf(t.aliases, e) == LatestAliases(run, e) - claimed.aliases
            && EdgesFrom(t.edges, e) == LatestEdges(run, e)
  {
    hide Published, KeysOf, RowTable, NamedAliases, EdgesFrom, SnapshotEdges, RowsOf;
    if run == [] {
      EmptyShows(e);
    } else {
      var front, p := run[..|run| - 1], run[|run| - 1];
      RunShowsUnclaimed(front, e);
      if p.committed {
        PublishExact(AfterRun(front), p.snapshot);
        if p.snapshot.entity.id == e {
          NothingTaken(LatestStates(run, e), LatestConflicts(run, e), LatestAliases(run, e));
        } else {
          var claimed, keys := ClaimedSince(front, e), KeysIn(p.snapshot);
          TakenTwice(LatestStates(front, e), claimed.states, keys.states);
          TakenTwice(LatestConflicts(front, e), claimed.conflicts, keys.conflicts);
          TakenTwice(LatestAliases(front, e), claimed.aliases, keys.aliases);
        }
      }
    }
  }

  lemma EmptyShows(e: int)
    ensures var t := NO_TABLES;
            RowsOf(t.states, e) == map[] && RowsOf(t.conflicts, e) == map[] && RowsOf(t.aliases, e) == map[] && EdgesFrom(t.edges, e) == []
  {
  }

  lemma NothingTaken(a: map<int, Owned<StateFields>>, b: map<int, Owned<ConflictFields>>, c: map<string, Owned<AliasFields>>)
    ensures a - {} == a && b - {} == b && c - {} == c
  {
  }

  lemma TakenTwice<K, V>(m: map<K, V>, a: set<K>, b: set<K>)
    ensures (m - a) - b == m - (a + b)
  {
  }

  lemma TakenNothing<K, V>(m: map<K, V>, ks: set<K>)
    ensures m - ks == m <==> m.Keys !! ks
  {
    if m - ks == m {
      forall k | k in m.Keys ensures k !in ks {
        assert k in m - ks;
      }
    }
  }

  /** The tables show exactly the entity's last committed snapshot. */
  ghost predicate Shows(t: Tables, run: seq<Publish>, e: int) {
    && RowsOf(t.states, e) == LatestStates(run, e)
    && RowsOf(t.conflicts, e) == LatestConflicts(run, e)
    && RowsOf(t.aliases, e) == LatestAliases(run, e)
    && EdgesFrom(t.edges, e) == LatestEdges(run, e)
  }

  /** The tables show exactly the last committed snapshot of an entity exactly when no other entity has
      claimed one of its keys since. */
  lemma RunShowsLatest(run: seq<Publish>, e: int)
    ensures var claimed := ClaimedSince(run, e);
            Shows(AfterRun(run), run, e) <==>
            && LatestStates(run, e).Keys !! claimed.states
            && LatestConflicts(run, e).Keys !! claimed.conflicts
            && LatestAliases(run, e).Keys !! claimed.aliases
  {
    hide AfterRun, ClaimedSince, RowsOf, EdgesFrom, LatestStates, LatestConflicts, LatestAliases, LatestEdges;
    RunShowsUnclaimed(run, e);
    var claimed := ClaimedSince(run, e);
    TakenNothing(LatestStates(run, e), claimed.states);
    TakenNothing(LatestConflicts(run, e), claimed.conflicts);
    TakenNothing(LatestAliases(run, e), claimed.aliases);
  }

  /** Who may use which key. */
  datatype Owners = Owners(states: int -> int, conflicts: int -> int, aliases: string -> int)

  ghost predicate OwnedBy<K>(keys: set<K>, owner: K -> int, e: int) {
    forall k :: k in keys ==> owner(k) == e
  }

  ghost predicate NotOwnedBy<K>(keys: set<K>, owner: K -> int, e: int) {
    forall k :: k in keys ==> owner(k) != e
  }

  /** Committed publishes use only their entity's own row ids and alias texts. */
  ghost predicate KeysOwned(run: seq<Publish>, o: Owners) {
    forall p :: p in run && p.committed ==>
      && OwnedBy(KeysIn(p.snapshot).states, o.states, p.snapshot.entity.id)
      && OwnedBy(KeysIn(p.snapshot).conflicts, o.conflicts, p.snapshot.entity.id)
      && OwnedBy(KeysIn(p.snapshot).aliases, o.aliases, p.snapshot.entity.id)
  }

  lemma {:induction false} ClaimedByOthers(run: seq<Publish>, e: int, o: Owners)
    requires KeysOwned(run, o)
    ensures var claimed := ClaimedSince(run, e);
            && NotOwnedBy(claimed.states, o.states, e)
            && NotOwnedBy(claimed.conflicts, o.conflicts, e)
            && NotOwnedBy(claimed.aliases, o.aliases, e)
  {
    hide KeysIn;
    if run != [] {
      assert run[|run| - 1] in run;
      ClaimedByOthers(run[..|run| - 1], e, o);
    }
  }

  lemma {:induction false} LatestOwned(run: seq<Publish>, e: int, o: Owners)
    requires KeysOwned(run, o) && Latest(run, e).Some?
    ensures var keys := KeysIn(Latest(run, e).value);
            OwnedBy(keys.states, o.states, e) && OwnedBy(keys.conflicts, o.conflicts, e) && OwnedBy(keys.aliases, o.aliases, e)
  {
    hide KeysIn, OwnedBy;
    var p := run[|run| - 1];
    assert p in run;
    if !(p.committed && p.snapshot.entity.id == e) {
      LatestOwned(run[..|run| - 1], e, o);
    }
  }

  lemma OwnersApart<K>(a: set<K>, b: set<K>, owner: K -> int, e: int)
    requires OwnedBy(a, owner, e) && NotOwnedBy(b, owner, e)
    ensures a !! b
  {
    forall k | k in a ensures k !in b {
      assert owner(k) == e;
    }
  }

  /** Entities that do not share row ids or alias texts are always shown as they were last published. */
  lemma OwnedRunShowsLatest(run: seq<Publish>, o: Owners, e: int)
    requires KeysOwned(run, o)
    ensures Shows(AfterRun(run), run, e)
  {
    RunShowsLatest(run, e);
    ClaimedByOthers(run, e, o);
    if Latest(run, e).Some? {
      var s := Latest(run, e).value;
      LatestOwned(run, e, o);
      MergeIsOverride(map[], e, s.states);
      MergeIsOverride(map[], e, s.conflicts);
      MergeIsOverride(map[], e, NamedAliases(s.aliases));
      hide OwnedBy, NotOwnedBy, KeysOf, NamedAliases, RowTable, ClaimedSince, Latest, AfterRun, KeysOwned;
      var claimed, keys := ClaimedSince(run, e), KeysIn(s);
      OwnersApart(keys.states, claimed.states, o.states, e);
      OwnersApart(keys.conflicts, claimed.conflicts, o.conflicts, e);
      OwnersApart(keys.aliases, claimed.aliases, o.aliases, e);
    }
  }

  /** An alias text that another entity has claimed since is shown for the other entity alone. */
  lemma SharedAliasMoves(run: seq<Publish>, s: Snapshot, alias: string, e: int)
    requires e != s.entity.id && alias in KeysOf(NamedAliases(s.aliases))
    ensures alias !in RowsOf(AfterRun(run + [Publish(s, true)]).aliases, e)
    ensures alias in RowsOf(AfterRun(run + [Publish(s, true)]).aliases, s.entity.id)
  {
    var longer := run + [Publish(s, true)];
    assert longer[..|run|] == run;
    RunShowsUnclaimed(longer, e);
    RunShowsUnclaimed(longer, s.entity.id);
    MergeIsOverride(map[], s.entity.id, NamedAliases(s.aliases));
    hide AfterRun, KeysOf, RowTable, NamedAliases;
  }

  /** At every point of a run every relation has both its endpoints. */
  lemma {:induction false} RunKeepsEndpoints(run: seq<Publish>)
    ensures EndpointsExist(AfterRun(run))
  {
    if run != [] {
      RunKeepsEndpoints(run[..|run| - 1]);
      hide Published, EndpointsExist;
      var p := run[|run| - 1];
      if p.committed {
        PublishKeepsEndpoints(AfterRun(run[..|run| - 1]), p.snapshot);
      }
    }
  }
}
