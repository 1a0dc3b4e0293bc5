/** Fingerprints of consolidated rows and their later comparison with the store, from brainstack/consolidation.py. */
module Consolidation {
  import opened Results
  import opened Ordering
  import opened Sequences
  import opened Text

  datatype Row = Row(id: int, kind: string, turn: int, content: string, createdAt: string)

  datatype Entry = Entry(sourceId: string, kind: string, turn: int, contentHash: string, createdAt: string)

  datatype Source = Source(kind: string, ids: seq<string>, fingerprint: string)

  /** The digest of a text and the digest of a list of entries. */
  datatype Digests = Digests(text: string -> string, entries: seq<Entry> -> string)

  function PrefixOf(sourceKind: string): string {
    if Normalize(sourceKind) != "" then Normalize(sourceKind) else "source"
  }

  function SourceId(prefix: string, id: int): string {
    prefix + ":" + IntToString(id)
  }

  function ContentHash(d: Digests, content: string): string {
    if Normalize(content) != "" then d.text(Normalize(content)) else ""
  }

  function EntryOf(d: Digests, prefix: string, row: Row): Entry {
    Entry(SourceId(prefix, row.id), Normalize(row.kind), row.turn, ContentHash(d, row.content), Normalize(row.createdAt))
  }

  function Positive(rows: seq<Row>): (r: seq<Row>)
    ensures forall i :: 0 <= i < |r| ==> r[i].id > 0
  {
    if rows == [] then []
    else
      var row := rows[|rows| - 1];
      Positive(rows[..|rows| - 1]) + if row.id > 0 then [row] else []
  }

  function EntriesOf(d: Digests, prefix: string, rows: seq<Row>): (es: seq<Entry>)
    ensures |es| == |rows|
  {
    seq(|rows|, i requires 0 <= i < |rows| => EntryOf(d, prefix, rows[i]))
  }

  function IdsOf(prefix: string, rows: seq<Row>): (ids: seq<string>)
    ensures |ids| == |rows|
  {
    seq(|rows|, i requires 0 <= i < |rows| => SourceId(prefix, rows[i].id))
  }

  predicate BySourceId(a: Entry, b: Entry) {
    StrLe(a.sourceId, b.sourceId)
  }

  function SourceOf(d: Digests, rows: seq<Row>, sourceKind: string): Source {
    var prefix := PrefixOf(sourceKind);
    var kept := Positive(rows);
    Source(prefix, IdsOf(prefix, kept), if kept == [] then "" else d.entries(SortBy(BySourceId, EntriesOf(d, prefix, kept))))
  }

  /** The loop that collects ids and entries of the rows with a positive id. */
  method BuildConsolidationSource(d: Digests, rows: seq<Row>, sourceKind: string) returns (s: Source)
    ensures s == SourceOf(d, rows, sourceKind)
  {
    hide PrefixOf, Normalize, SourceId, SortBy, EntryOf, Positive, IdsOf, EntriesOf;
    var prefix := PrefixOf(sourceKind);
    var ids, entries := [], [];
    NothingRead(d, prefix);
    for i := 0 to |rows|
      invariant ids == IdsOf(prefix, Positive(rows[..i]))
      invariant entries == EntriesOf(d, prefix, Positive(rows[..i]))
    {
      var row := rows[i];
      ReadOne(d, prefix, rows[..i], row);
      assert rows[..i + 1] == rows[..i] + [row];
      if row.id > 0 {
        ids := ids + [SourceId(prefix, row.id)];
        entries := entries + [EntryOf(d, prefix, row)];
      }
    }
    assert rows[..|rows|] == rows;
    s := Source(prefix, ids, if entries == [] then "" else d.entries(SortBy(BySourceId, entries)));
  }

  lemma NothingRead(d: Digests, prefix: string)
    ensures IdsOf(prefix, Positive([])) == [] && EntriesOf(d, prefix, Positive([])) == []
  {
  }

  lemma ReadOne(d: Digests, prefix: string, rows: seq<Row>, row: Row)
    ensures IdsOf(prefix, Positive(rows + [row])) == IdsOf(prefix, Positive(rows)) + if row.id > 0 then [SourceId(prefix, row.id)] else []
    ensures EntriesOf(d, prefix, Positive(rows + [row])) ==
            EntriesOf(d, prefix, Positive(rows)) + if row.id > 0 then [EntryOf(d, prefix, row)] else []
  {
    hide SourceId, EntryOf;
    assert (rows + [row])[..|rows|] == rows;
    var kept := Positive(rows);
    assert Positive(rows + [row]) == kept + if row.id > 0 then [row] else [];
    hide Positive;
    assert kept + [] == kept;
  }

  // ----- comparison with the store -----

  datatype Status = Untracked | DegradedMissingSource | Current | StaleSourceChanged

  function NonBlank(ids: seq<string>): seq<string> {
    if ids == [] then []
    else NonBlank(ids[..|ids| - 1]) + if Blank(ids[|ids| - 1]) then [] else [ids[|ids| - 1]]
  }

  /** The entry of `rows_by_source_id`: the last row with that source id. */
  function RowFor(prefix: string, rows: seq<Row>, sourceId: string): Option<Row> {
    if rows == [] then None
    else
      var row := rows[|rows| - 1];
      if row.id > 0 && SourceId(prefix, row.id) == sourceId then Some(row)
      else RowFor(prefix, rows[..|rows| - 1], sourceId)
  }

  function Matched(prefix: string, rows: seq<Row>, ids: seq<string>): (r: seq<Row>)
    ensures |r| <= |ids|
  {
    if ids == [] then []
    else
      var row := RowFor(prefix, rows, ids[|ids| - 1]);
      Matched(prefix, rows, ids[..|ids| - 1]) + if row.Some? then [row.value] else []
  }

  function ConsolidationSourceStatus(d: Digests, metadata: Option<Source>, rows: seq<Row>): Status {
    match metadata
    case None => Untracked
    case Some(source) =>
      var expected := NonBlank(source.ids);
      var kind := Normalize(source.kind);
      var matched := Matched(kind, rows, expected);
      if expected == [] || kind == "" || |matched| != |expected| then DegradedMissingSource
      else if SourceOf(d, matched, kind).fingerprint == source.fingerprint then Current
      else StaleSourceChanged
  }

  /** A row with a positive id has that source id. */
  ghost predicate InStore(prefix: string, rows: seq<Row>, sourceId: string) {
    exists i :: 0 <= i < |rows| && rows[i].id > 0 && prefix + ":" + IntToString(rows[i].id) == sourceId
  }

  /** For any metadata: degraded without a kind, without an id that is not blank, or with such an id that no row has. */
  lemma DegradedExactly(d: Digests, metadata: Option<Source>, rows: seq<Row>)
    ensures ConsolidationSourceStatus(d, metadata, rows) == Untracked <==> metadata.None?
    ensures metadata.Some? ==>
              var source := metadata.value;
              (ConsolidationSourceStatus(d, metadata, rows) == DegradedMissingSource <==>
                || Blank(source.kind)
                || (forall id :: id in source.ids ==> Blank(id))
                || (exists id :: id in source.ids && !Blank(id) && !InStore(Normalize(source.kind), rows, id)))
  {
    if metadata.Some? {
      var source := metadata.value;
      NormalBlank(source.kind);
      NonBlankMembers(source.ids);
      hide Normalize, Blank, NonBlank, InStore, Matched, SourceOf;
      var expected, kind := NonBlank(source.ids), Normalize(source.kind);
      AllMatched(kind, rows, expected);
      assert expected != [] ==> expected[0] in expected;
    }
  }

  lemma {:induction false} NonBlankMembers(ids: seq<string>)
    ensures forall id :: id in NonBlank(ids) <==> id in ids && !Blank(id)
  {
    hide Blank;
    if ids != [] {
      NonBlankMembers(ids[..|ids| - 1]);
      assert ids == ids[..|ids| - 1] + [ids[|ids| - 1]];
    }
  }

  lemma {:induction false} AllMatched(prefix: string, rows: seq<Row>, ids: seq<string>)
    ensures |Matched(prefix, rows, ids)| == |ids| <==> forall id :: id in ids ==> InStore(prefix, rows, id)
  {
    hide InStore, RowFor;
    if ids != [] {
      AllMatched(prefix, rows, ids[..|ids| - 1]);
      RowForExists(prefix, rows, ids[|ids| - 1]);
      assert ids == ids[..|ids| - 1] + [ids[|ids| - 1]];
    }
  }

  lemma {:induction false} RowForExists(prefix: string, rows: seq<Row>, sourceId: string)
    ensures RowFor(prefix, rows, sourceId).Some? <==> InStore(prefix, rows, sourceId)
  {
    hide IntToString;
    if rows != [] {
      var n := |rows| - 1;
      RowForExists(prefix, rows[..n], sourceId);
      assert forall i :: 0 <= i < n ==> rows[..n][i] == rows[i];
    }
  }

  // ----- what the status means -----

  ghost predicate DistinctIds(rows: seq<Row>) {
    forall i, j :: 0 <= i < j < |rows| && rows[i].id == rows[j].id ==> rows[i].id <= 0
  }

  /** Same row as far as tracking goes. */
  predicate Agrees(d: Digests, tracked: Row, now: Row) {
    && now.id == tracked.id && Normalize(now.kind) == Normalize(tracked.kind) && now.turn == tracked.turn
    && ContentHash(d, now.content) == ContentHash(d, tracked.content)
    && Normalize(now.createdAt) == Normalize(tracked.createdAt)
  }

  /** The last row with that id. */
  function Latest(rows: seq<Row>, id: int): Option<Row> {
    if rows == [] then None
    else if rows[|rows| - 1].id == id then Some(rows[|rows| - 1])
    else Latest(rows[..|rows| - 1], id)
  }

  predicate Present(rows: seq<Row>, tracked: Row) {
    Latest(rows, tracked.id).Some?
  }

  predicate Unchanged(d: Digests, rows: seq<Row>, tracked: Row) {
    Latest(rows, tracked.id).Some? && Agrees(d, tracked, Latest(rows, tracked.id).value)
  }

  /** Different lists have different digests. */
  ghost predicate InjectiveOnEntries(d: Digests) {
    forall a, b :: d.entries(a) == d.entries(b) ==> a == b
  }

  /** The status of a source built from `tracked` rows and compared with the rows there are now. */
  lemma StatusExact(d: Digests, tracked: seq<Row>, sourceKind: string, rows: seq<Row>)
    requires DistinctIds(tracked) && InjectiveOnEntries(d)
    ensures var kept := Positive(tracked);
            var status := ConsolidationSourceStatus(d, Some(SourceOf(d, tracked, sourceKind)), rows);
            && (status == DegradedMissingSource <==> kept == [] || exists i :: 0 <= i < |kept| && !Present(rows, kept[i]))
            && (status == Current <==> kept != [] && forall i :: 0 <= i < |kept| ==> Unchanged(d, rows, kept[i]))
            && status != Untracked
  {
    hide PrefixOf, Positive, SortBy, EntriesOf, IdsOf, Matched, NonBlank, Latest, Normalize, DistinctIds, ContentHash, Agrees, InjectiveOnEntries;
    var prefix, kept := PrefixOf(sourceKind), Positive(tracked);
    var source := SourceOf(d, tracked, sourceKind);
    PrefixIsNormal(sourceKind);
    KeepsDistinct(tracked);
    IdsNotBlank(prefix, kept);
    var matched := Matched(prefix, rows, source.ids);
    MatchedExact(prefix, rows, kept);
    assert kept == [] <==> source.ids == [];
    if kept != [] && |matched| == |kept| {
      SameFingerprint(d, prefix, kept, matched);
      PositiveFixed(matched);
    }
  }

  /** Different texts have different digests, and none is empty. */
  ghost predicate InjectiveOnTexts(d: Digests) {
    (forall a, b :: d.text(a) == d.text(b) ==> a == b) && forall a :: d.text(a) != ""
  }

  /** A row agrees with the tracked one exactly when nothing but the spacing of its texts has changed. */
  lemma AgreesExactly(d: Digests, tracked: Row, now: Row)
    requires InjectiveOnTexts(d)
    ensures Agrees(d, tracked, now) <==>
            && now.id == tracked.id && now.turn == tracked.turn && Words(now.kind) == Words(tracked.kind)
            && Words(now.content) == Words(tracked.content) && Words(now.createdAt) == Words(tracked.createdAt)
  {
    SameWords(now.kind, tracked.kind);
    SameWords(now.content, tracked.content);
    SameWords(now.createdAt, tracked.createdAt);
    hide Normalize, Words;
  }

  lemma SameWords(a: string, b: string)
    ensures Normalize(a) == Normalize(b) <==> Words(a) == Words(b)
  {
    NormalizeIdempotent(a);
    NormalizeIdempotent(b);
    WordsOfJoin(Words(a));
    WordsOfJoin(Words(b));
    hide Words, Join;
  }

  predicate IsPositive(row: Row) {
    row.id > 0
  }

  /** The tracked rows: those with a positive id, in order. */
  lemma {:induction false} PositiveExactly(rows: seq<Row>) returns (at: seq<nat>)
    ensures Picks(rows, IsPositive, Itself<Row>, Positive(rows), at)
  {
    hide Picks;
    if rows == [] {
      at := [];
      PicksNothing<Row, Row>(IsPositive, Itself<Row>);
    } else {
      var n := |rows| - 1;
      var front := PositiveExactly(rows[..n]);
      PicksSnoc(rows[..n], rows[n], IsPositive, Itself<Row>, Positive(rows[..n]), front);
      assert rows[..n] + [rows[n]] == rows && Itself(rows[n]) == rows[n] && Positive(rows[..n]) + [] == Positive(rows[..n]);
      at := if rows[n].id > 0 then front + [n] else front;
    }
  }

  function IdFor(prefix: string): Row -> string {
    (row: Row) => prefix + ":" + IntToString(row.id)
  }

  /** A source names its kind, "source" by default, and under it the tracked rows, in order. */
  lemma SourceExactly(d: Digests, rows: seq<Row>, sourceKind: string) returns (at: seq<nat>)
    ensures var s := SourceOf(d, rows, sourceKind);
            && s.kind == (if Blank(sourceKind) then "source" else Normalize(sourceKind))
            && Picks(rows, IsPositive, IdFor(s.kind), s.ids, at)
            && (s.fingerprint == "" <== s.ids == [])
  {
    at := PositiveExactly(rows);
    NormalBlank(sourceKind);
    hide Normalize, Blank, Positive, SortBy;
    var kept := Positive(rows);
    assert forall i :: 0 <= i < |at| ==> kept[i] == Itself(rows[at[i]]) == rows[at[i]];
  }

  lemma NormalBlank(s: string)
    ensures Normalize(s) == "" <==> Blank(s)
  {
    WordsOfBlank(s);
    JoinNonEmpty(Words(s));
  }

  lemma PrefixIsNormal(sourceKind: string)
    ensures var prefix := PrefixOf(sourceKind); Normalize(prefix) == prefix && PrefixOf(prefix) == prefix
    ensures PrefixOf(sourceKind) != "" && !IsSpace(PrefixOf(sourceKind)[0])
  {
    NormalizeIdempotent(sourceKind);
    var w := "source";
    forall k | 0 <= k < |w| ensures !IsSpace(w[k]) {
      SpaceFacts(w[k]);
    }
    WordsOfWord(w);
    if Normalize(sourceKind) != "" {
      JoinNonEmpty(Words(sourceKind));
      JoinEnds(Words(sourceKind));
    }
  }

  lemma {:induction false} PositiveMembers(rows: seq<Row>)
    ensures forall row :: row in Positive(rows) <==> row in rows && row.id > 0
  {
    if rows != [] {
      var n := |rows| - 1;
      var older := rows[..n];
      PositiveMembers(older);
      assert rows == older + [rows[n]];
    }
  }

  lemma {:induction false} KeepsDistinct(rows: seq<Row>)
    requires DistinctIds(rows)
    ensures DistinctIds(Positive(rows))
    ensures forall row :: row in Positive(rows) <==> row in rows && row.id > 0
  {
    PositiveMembers(rows);
    if rows != [] {
      var n := |rows| - 1;
      var older := rows[..n];
      KeepsDistinct(older);
      var front := Positive(older);
      forall i | 0 <= i < |front| && rows[n].id > 0 ensures front[i].id != rows[n].id {
        assert front[i] in older;
      }
    }
  }

  lemma {:induction false} PositiveFixed(rows: seq<Row>)
    requires forall i :: 0 <= i < |rows| ==> rows[i].id > 0
    ensures Positive(rows) == rows
  {
    if rows != [] {
      PositiveFixed(rows[..|rows| - 1]);
    }
  }

  lemma {:induction false} IdsNotBlank(prefix: string, rows: seq<Row>)
    requires prefix != "" && !IsSpace(prefix[0])
    ensures NonBlank(IdsOf(prefix, rows)) == IdsOf(prefix, rows)
  {
    hide IsSpace, SourceId, Blank;
    if rows != [] {
      var n := |rows| - 1;
      IdsNotBlank(prefix, rows[..n]);
      var ids := IdsOf(prefix, rows);
      assert ids[..n] == IdsOf(prefix, rows[..n]);
      IdNotBlank(prefix, rows[n].id);
      assert ids[..n] + [ids[n]] == ids;
    }
  }

  lemma IdNotBlank(prefix: string, id: int)
    requires prefix != "" && !IsSpace(prefix[0])
    ensures !Blank(SourceId(prefix, id))
  {
    hide IsSpace, IntToString;
    assert SourceId(prefix, id)[0] == prefix[0];
  }

  lemma {:induction false} RowForIsLatest(prefix: string, rows: seq<Row>, id: int)
    requires id > 0
    ensures RowFor(prefix, rows, SourceId(prefix, id)) == Latest(rows, id)
    ensures Latest(rows, id).Some? ==> Latest(rows, id).value.id == id
  {
    hide IntToString;
    if rows != [] {
      RowForIsLatest(prefix, rows[..|rows| - 1], id);
      var other := rows[|rows| - 1].id;
      if SourceId(prefix, other) == SourceId(prefix, id) {
        ColonIdInjective(prefix, other, prefix, id);
      }
    }
  }

  /** Every row is found, in order, or the list is short. */
  lemma {:induction false} MatchedExact(prefix: string, rows: seq<Row>, kept: seq<Row>)
    requires forall i :: 0 <= i < |kept| ==> kept[i].id > 0
    ensures var matched := Matched(prefix, rows, IdsOf(prefix, kept));
            && (|matched| == |kept| <==> forall i :: 0 <= i < |kept| ==> Present(rows, kept[i]))
            && (|matched| == |kept| ==> forall i :: 0 <= i < |kept| ==> Latest(rows, kept[i].id) == Some(matched[i]) && matched[i].id == kept[i].id)
  {
    hide SourceId, Latest, RowFor;
    if kept != [] {
      var n := |kept| - 1;
      var ids := IdsOf(prefix, kept);
      assert ids[..n] == IdsOf(prefix, kept[..n]);
      MatchedExact(prefix, rows, kept[..n]);
      RowForIsLatest(prefix, rows, kept[n].id);
    }
  }

  /** The fingerprints agree exactly when the rows agree one by one. */
  lemma SameFingerprint(d: Digests, prefix: string, kept: seq<Row>, matched: seq<Row>)
    requires InjectiveOnEntries(d) && DistinctIds(kept) && |matched| == |kept|
    requires forall i :: 0 <= i < |kept| ==> kept[i].id > 0 && matched[i].id == kept[i].id
    ensures d.entries(SortBy(BySourceId, EntriesOf(d, prefix, matched))) == d.entries(SortBy(BySourceId, EntriesOf(d, prefix, kept))) <==>
            forall i :: 0 <= i < |kept| ==> Agrees(d, kept[i], matched[i])
  {
    hide EntryOf, Agrees, SortBy, BySourceId, SourceId;
    var a, b := EntriesOf(d, prefix, kept), EntriesOf(d, prefix, matched);
    forall i | 0 <= i < |kept| ensures a[i] == b[i] <==> Agrees(d, kept[i], matched[i]) {
      EntryAgrees(d, prefix, kept[i], matched[i]);
    }
    if SortBy(BySourceId, a) == SortBy(BySourceId, b) {
      SortPermutes(BySourceId, a);
      SortPermutes(BySourceId, b);
      forall i | 0 <= i < |kept| ensures a[i] == b[i] {
        assert a[i] in multiset(b);
        var j :| 0 <= j < |b| && b[j] == a[i];
        EntryId(d, prefix, kept[i]);
        EntryId(d, prefix, matched[j]);
        SourceIdInjective(prefix, kept[i].id, kept[j].id);
      }
    }
    assert (forall i :: 0 <= i < |kept| ==> a[i] == b[i]) ==> a == b;
  }

  lemma EntryId(d: Digests, prefix: string, row: Row)
    ensures EntryOf(d, prefix, row).sourceId == SourceId(prefix, row.id)
  {
  }

  lemma EntryAgrees(d: Digests, prefix: string, tracked: Row, now: Row)
    requires now.id == tracked.id
    ensures EntryOf(d, prefix, now) == EntryOf(d, prefix, tracked) <==> Agrees(d, tracked, now)
  {
    hide Normalize, ContentHash, SourceId;
  }

  lemma SourceIdInjective(prefix: string, m: int, n: int)
    ensures SourceId(prefix, m) == SourceId(prefix, n) ==> m == n
  {
    hide IntToString;
    if SourceId(prefix, m) == SourceId(prefix, n) {
      ColonIdInjective(prefix, m, prefix, n);
    }
  }

  // ----- order and extra rows -----

  /** With distinct ids, the latest row with an id is the row with that id: order and other rows do not matter. */
  lemma {:induction false} LatestIsTheRow(rows: seq<Row>, row: Row)
    requires DistinctIds(rows) && row.id > 0
    ensures Latest(rows, row.id) == Some(row) <==> row in rows
  {
    if rows != [] {
      var n := |rows| - 1;
      LatestIsTheRow(rows[..n], row);
      assert row in rows <==> row in rows[..n] || row == rows[n];
      if row in rows[..n] {
        var i :| 0 <= i < n && rows[i] == row;
      }
    }
  }

  lemma RowOrderDoesNotMatter(d: Digests, source: Option<Source>, a: seq<Row>, b: seq<Row>)
    requires DistinctIds(a) && DistinctIds(b)
    requires forall row: Row :: row.id > 0 ==> (row in a <==> row in b)
    ensures ConsolidationSourceStatus(d, source, a) == ConsolidationSourceStatus(d, source, b)
  {
    hide Matched, NonBlank, Normalize, SourceOf, DistinctIds;
    if source.Some? {
      SameMatched(Normalize(source.value.kind), a, b, NonBlank(source.value.ids));
    }
  }

  lemma {:induction false} SameMatched(prefix: string, a: seq<Row>, b: seq<Row>, ids: seq<string>)
    requires DistinctIds(a) && DistinctIds(b)
    requires forall row: Row :: row.id > 0 ==> (row in a <==> row in b)
    ensures Matched(prefix, a, ids) == Matched(prefix, b, ids)
  {
    if ids != [] {
      SameMatched(prefix, a, b, ids[..|ids| - 1]);
      SameRowFor(prefix, a, b, ids[|ids| - 1]);
    }
  }

  lemma {:induction false} RowForInRows(prefix: string, rows: seq<Row>, sourceId: string)
    ensures var r := RowFor(prefix, rows, sourceId);
            if r.Some? then r.value in rows && r.value.id > 0 && SourceId(prefix, r.value.id) == sourceId
            else forall row: Row :: row in rows && row.id > 0 ==> SourceId(prefix, row.id) != sourceId
  {
    hide SourceId;
    if rows != [] {
      RowForInRows(prefix, rows[..|rows| - 1], sourceId);
      assert forall row :: row in rows <==> row in rows[..|rows| - 1] || row == rows[|rows| - 1];
    }
  }

  lemma SameRowFor(prefix: string, a: seq<Row>, b: seq<Row>, sourceId: string)
    requires DistinctIds(a) && DistinctIds(b)
    requires forall row: Row :: row.id > 0 ==> (row in a <==> row in b)
    ensures RowFor(prefix, a, sourceId) == RowFor(prefix, b, sourceId)
  {
    hide SourceId, RowFor;
    RowForInRows(prefix, a, sourceId);
    RowForInRows(prefix, b, sourceId);
    var x, y := RowFor(prefix, a, sourceId), RowFor(prefix, b, sourceId);
    if x.Some? && y.Some? {
      SourceIdInjective(prefix, x.value.id, y.value.id);
      var i :| 0 <= i < |a| && a[i] == x.value;
      var j :| 0 <= j < |a| && a[j] == y.value;
    }
  }

  lemma {:induction false} PositiveAppend(a: seq<Row>, b: seq<Row>)
    ensures Positive(a + b) == Positive(a) + Positive(b)
  {
    if b == [] {
      assert a + b == a;
    } else {
      assert (a + b)[..|a + b| - 1] == a + b[..|b| - 1];
      PositiveAppend(a, b[..|b| - 1]);
    }
  }

  lemma EntriesAppend(d: Digests, prefix: string, a: seq<Row>, b: seq<Row>)
    ensures EntriesOf(d, prefix, Positive(a + b)) == EntriesOf(d, prefix, Positive(a)) + EntriesOf(d, prefix, Positive(b))
  {
    hide EntryOf, Positive;
    PositiveAppend(a, b);
  }

  lemma {:induction false} EntriesPermute(d: Digests, prefix: string, a: seq<Row>, b: seq<Row>)
    requires multiset(a) == multiset(b)
    ensures multiset(EntriesOf(d, prefix, Positive(a))) == multiset(EntriesOf(d, prefix, Positive(b)))
  {
    hide EntriesOf, Positive;
    if a == [] {
      assert |b| == |multiset(b)| == 0;
    } else {
      var front, x := a[..|a| - 1], a[|a| - 1];
      Front(a);
      assert x in multiset(a);
      var j :| 0 <= j < |b| && b[j] == x;
      TakeOut(d, prefix, a, |a| - 1);
      TakeOut(d, prefix, b, j);
      assert front + a[|a|..] == front;
      EntriesPermute(d, prefix, front, b[..j] + b[j + 1..]);
    }
  }

  lemma TakeOut(d: Digests, prefix: string, rows: seq<Row>, j: nat)
    requires j < |rows|
    ensures var rest := rows[..j] + rows[j + 1..];
            && multiset(rest) == multiset(rows) - multiset{rows[j]}
            && multiset(EntriesOf(d, prefix, Positive(rows))) ==
               multiset(EntriesOf(d, prefix, Positive(rest))) + multiset(EntriesOf(d, prefix, Positive([rows[j]])))
  {
    hide EntriesOf, Positive;
    var left, right := rows[..j], rows[j + 1..];
    assert rows == left + ([rows[j]] + right);
    EntriesAppend(d, prefix, left, [rows[j]] + right);
    EntriesAppend(d, prefix, [rows[j]], right);
    EntriesAppend(d, prefix, left, right);
  }

  lemma SourceIdsOrdered()
    ensures TotalPreorder(BySourceId)
  {
    forall a: Entry, b: Entry ensures BySourceId(a, b) || BySourceId(b, a) {
      StrLeTotal(a.sourceId, b.sourceId);
    }
    forall a: Entry, b: Entry, c: Entry | BySourceId(a, b) && BySourceId(b, c) ensures BySourceId(a, c) {
      StrLeTransitive(a.sourceId, b.sourceId, c.sourceId);
    }
  }

  lemma NoTiesAmong(d: Digests, prefix: string, rows: seq<Row>)
    requires DistinctIds(rows)
    ensures NoTies(BySourceId, EntriesOf(d, prefix, Positive(rows)))
  {
    hide SourceId, Normalize, Positive, ContentHash, StrLe;
    var kept := Positive(rows);
    KeepsDistinct(rows);
    var es := EntriesOf(d, prefix, kept);
    forall a, b | a in es && b in es && BySourceId(a, b) && BySourceId(b, a) ensures a == b {
      StrLeTotal(a.sourceId, b.sourceId);
      var i :| 0 <= i < |es| && es[i] == a;
      var j :| 0 <= j < |es| && es[j] == b;
      SourceIdInjective(prefix, kept[i].id, kept[j].id);
    }
  }

  /** The fingerprint does not depend on the order in which the tracked rows were read. */
  lemma BuildOrderDoesNotMatter(d: Digests, a: seq<Row>, b: seq<Row>, sourceKind: string)
    requires DistinctIds(a) && multiset(a) == multiset(b)
    ensures SourceOf(d, a, sourceKind).fingerprint == SourceOf(d, b, sourceKind).fingerprint
  {
    hide SourceId, Normalize, Positive, EntryOf, EntriesOf, StrLe, BySourceId, NoTies, DistinctIds, PrefixOf, SortBy, Sorted, TotalPreorder, IdsOf;
    var prefix := PrefixOf(sourceKind);
    var es, fs := EntriesOf(d, prefix, Positive(a)), EntriesOf(d, prefix, Positive(b));
    EntriesPermute(d, prefix, a, b);
    NoTiesAmong(d, prefix, a);
    SameSorted(es, fs);
    assert |es| == |multiset(es)| && |fs| == |multiset(fs)|;
  }

  lemma SameSorted(es: seq<Entry>, fs: seq<Entry>)
    requires multiset(es) == multiset(fs) && NoTies(BySourceId, es)
    ensures SortBy(BySourceId, es) == SortBy(BySourceId, fs)
  {
    hide BySourceId, SortBy, Sorted, TotalPreorder;
    SourceIdsOrdered();
    SortPermutes(BySourceId, es);
    SortPermutes(BySourceId, fs);
    SortSorts(BySourceId, es);
    SortSorts(BySourceId, fs);
    var sorted := SortBy(BySourceId, es);
    forall e | e in sorted ensures e in es {
      assert e in multiset(sorted);
    }
    SortedUnique(BySourceId, sorted, SortBy(BySourceId, fs));
  }
}
