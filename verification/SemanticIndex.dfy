/** The derived corpus index of brainstack/corpus_backend_chroma.py: publishing a document's sections and
    repairing a corrupt store, as steps over a table from row id to row. */
module SemanticIndex {
  import opened Results
  import opened Sequences
  import opened Text

  /** `info` stands for the metadata that is copied as it is. */
  datatype Section = Section(index: int, content: string, heading: string, info: string)

  datatype Document = Document(stableKey: string, info: string, sections: seq<Section>)

  datatype Row = Row(stableKey: string, index: int, content: string, heading: string, documentInfo: string, sectionInfo: string)

  type Rows = map<string, Row>

  function RowId(key: string, index: int): string {
    key + ":" + IntToString(index)
  }

  function RowOf(d: Document, s: Section): Row {
    Row(Strip(d.stableKey), s.index, Strip(s.content), Strip(s.heading), d.info, s.info)
  }

  /** The sections that have text. */
  function Filled(sections: seq<Section>): seq<Section> {
    if sections == [] then []
    else
      var n := |sections| - 1;
      Filled(sections[..n]) + if Strip(sections[n].content) != "" then [sections[n]] else []
  }

  /** The rows of some sections of a document, under their ids. */
  function Table(d: Document, sections: seq<Section>): Rows {
    if sections == [] then map[]
    else
      var n := |sections| - 1;
      Table(d, sections[..n])[RowId(Strip(d.stableKey), sections[n].index) := RowOf(d, sections[n])]
  }

  function DocumentTable(d: Document): Rows {
    Table(d, Filled(d.sections))
  }

  function RowsFor(rows: Rows, key: string): Rows {
    map id | id in rows && rows[id].stableKey == key :: rows[id]
  }

  function WithoutKey(rows: Rows, key: string): Rows {
    map id | id in rows && rows[id].stableKey != key :: rows[id]
  }

  /** Every row is stored under its own id. */
  ghost predicate Filed(rows: Rows) {
    forall id :: id in rows ==> id == RowId(rows[id].stableKey, rows[id].index)
  }

  predicate DistinctIndexes(sections: seq<Section>) {
    forall i, j :: 0 <= i < j < |sections| ==> sections[i].index != sections[j].index
  }

  // ----- the document's table -----

  lemma RowIdInjective(k: string, i: int, l: string, j: int)
    ensures RowId(k, i) == RowId(l, j) <==> k == l && i == j
  {
    if RowId(k, i) == RowId(l, j) {
      ColonIdInjective(k, i, l, j);
    }
  }

  lemma {:induction false} TableFiled(d: Document, sections: seq<Section>)
    ensures Filed(Table(d, sections))
    ensures forall id :: id in Table(d, sections) ==> Table(d, sections)[id].stableKey == Strip(d.stableKey)
  {
    hide Strip, RowId;
    if sections != [] {
      TableFiled(d, sections[..|sections| - 1]);
    }
  }

  /** With distinct indexes the table has exactly one row for each section, under the section's id. */
  lemma {:induction false} TableExact(d: Document, sections: seq<Section>)
    requires DistinctIndexes(sections)
    ensures |Table(d, sections)| == |sections|
    ensures forall s :: s in sections ==> RowId(Strip(d.stableKey), s.index) in Table(d, sections)
                                          && Table(d, sections)[RowId(Strip(d.stableKey), s.index)] == RowOf(d, s)
    ensures forall id :: id in Table(d, sections) ==> exists s :: s in sections && id == RowId(Strip(d.stableKey), s.index)
  {
    hide Strip, RowId;
    if sections != [] {
      var n := |sections| - 1;
      var front, last := sections[..n], sections[n];
      TableExact(d, front);
      var id, t := RowId(Strip(d.stableKey), last.index), Table(d, front);
      forall s | s in front ensures RowId(Strip(d.stableKey), s.index) != id {
        RowIdInjective(Strip(d.stableKey), s.index, Strip(d.stableKey), last.index);
      }
      assert id !in t;
      forall x | x in Table(d, sections) ensures exists s :: s in sections && x == RowId(Strip(d.stableKey), s.index) {
        if x == id {
          assert last in sections;
        } else {
          var s :| s in front && x == RowId(Strip(d.stableKey), s.index);
          assert s in sections;
        }
      }
    }
  }

  // ----- which sections are shown, and how -----

  predicate HasText(s: Section) {
    Strip(s.content) != ""
  }

  lemma {:induction false} FilledExactly(sections: seq<Section>) returns (at: seq<nat>)
    ensures Picks(sections, HasText, Itself<Section>, Filled(sections), at)
  {
    hide Strip, Picks;
    if sections == [] {
      at := [];
      PicksNothing<Section, Section>(HasText, Itself<Section>);
    } else {
      var n := |sections| - 1;
      var front := FilledExactly(sections[..n]);
      PicksSnoc(sections[..n], sections[n], HasText, Itself<Section>, Filled(sections[..n]), front);
      assert sections[..n] + [sections[n]] == sections && Itself(sections[n]) == sections[n];
      assert Filled(sections[..n]) + [] == Filled(sections[..n]);
      at := if HasText(sections[n]) then front + [n] else front;
    }
  }

  /** No two sections with text have the same index. */
  predicate TextIndexesDistinct(sections: seq<Section>) {
    forall i, j :: 0 <= i < j < |sections| && HasText(sections[i]) && HasText(sections[j]) ==> sections[i].index != sections[j].index
  }

  lemma FilledMembers(sections: seq<Section>)
    ensures forall s :: s in Filled(sections) <==> s in sections && HasText(s)
    ensures DistinctIndexes(Filled(sections)) <==> TextIndexesDistinct(sections)
  {
    var at := FilledExactly(sections);
    var filled := Filled(sections);
    hide Filled, HasText;
    assert forall i :: 0 <= i < |at| ==> filled[i] == Itself(sections[at[i]]) == sections[at[i]];
    forall k | 0 <= k < |sections| && HasText(sections[k]) ensures sections[k] in filled {
      var i :| 0 <= i < |at| && at[i] == k;
      assert filled[i] == sections[k];
    }
    if DistinctIndexes(filled) {
      forall i, j | 0 <= i < j < |sections| && HasText(sections[i]) && HasText(sections[j])
        ensures sections[i].index != sections[j].index
      {
        var a :| 0 <= a < |at| && at[a] == i;
        var b :| 0 <= b < |at| && at[b] == j;
        assert a < b && filled[a] == sections[i] && filled[b] == sections[j];
      }
    }
  }

  /** Each section with text has its row, with its own text, heading, index and infos and the document's. */
  ghost predicate HasSections(rows: Rows, d: Document) {
    forall s :: s in d.sections && HasText(s) ==>
      var id := RowId(Strip(d.stableKey), s.index);
      id in rows && rows[id] == Row(Strip(d.stableKey), s.index, Strip(s.content), Strip(s.heading), d.info, s.info)
  }

  /** The rows of the document's key are those of its sections with text, and no others. */
  ghost predicate ShowsSections(rows: Rows, d: Document) {
    var key := Strip(d.stableKey);
    && HasSections(rows, d)
    && forall i :: RowId(key, i) in RowsFor(rows, key) <==> exists s :: s in d.sections && HasText(s) && s.index == i
  }

  lemma TableHasSections(d: Document)
    requires TextIndexesDistinct(d.sections)
    ensures HasSections(DocumentTable(d), d)
    ensures forall i :: RowId(Strip(d.stableKey), i) in DocumentTable(d) <==> exists s :: s in d.sections && HasText(s) && s.index == i
  {
    FilledMembers(d.sections);
    var filled, key := Filled(d.sections), Strip(d.stableKey);
    TableExact(d, filled);
    hide Filled, HasText, Strip, RowId, Table, DistinctIndexes;
    forall i ensures RowId(key, i) in DocumentTable(d) <==> exists s :: s in d.sections && HasText(s) && s.index == i {
      if RowId(key, i) in DocumentTable(d) {
        var s :| s in filled && RowId(key, i) == RowId(key, s.index);
        RowIdInjective(key, i, key, s.index);
      }
    }
  }

  /** What is in the index after a publish, and, of it, after one that broke off once its rows were written. */
  lemma PublishShows(rows: Rows, d: Document)
    requires Filed(rows) && TextIndexesDistinct(d.sections)
    ensures ShowsSections(Replaced(rows, d), d)
    ensures HasSections(Replaced(rows, d), d) && HasSections(rows + DocumentTable(d), d)
  {
    hide HasSections, Strip, HasText, RowId, DocumentTable, Filed, Replaced;
    TableHasSections(d);
    var key, table := Strip(d.stableKey), DocumentTable(d);
    ReplacedExact(rows, d, key);
    hide RowsFor;
    MoreSections(RowsFor(Replaced(rows, d), key), Replaced(rows, d), d);
    MoreSections(table, rows + table, d);
  }

  lemma MoreSections(rows: Rows, all: Rows, d: Document)
    requires HasSections(rows, d) && (forall id :: id in rows ==> id in all && all[id] == rows[id])
    ensures HasSections(all, d)
  {
    hide Strip, HasText, RowId;
  }

  // ----- what an upsert touches -----

  lemma DocumentTableFiled(d: Document)
    ensures Filed(DocumentTable(d)) && AllOf(DocumentTable(d), Strip(d.stableKey))
  {
    TableFiled(d, Filled(d.sections));
  }

  ghost predicate AllOf(rows: Rows, key: string) {
    forall id :: id in rows ==> rows[id].stableKey == key
  }

  /** An id that two tables share belongs to the same key in both. */
  lemma SharedIds(rows: Rows, t: Rows, key: string)
    requires Filed(rows) && Filed(t) && AllOf(t, key)
    ensures forall id :: id in rows && id in t ==> rows[id].stableKey == key
  {
    hide RowId;
    forall id | id in rows && id in t ensures rows[id].stableKey == key {
      RowIdInjective(rows[id].stableKey, rows[id].index, t[id].stableKey, t[id].index);
    }
  }

  /** Because ids are injective, adding a document's rows never touches another key's rows. */
  lemma UpsertKeepsOthers(rows: Rows, t: Rows, key: string, other: string)
    requires Filed(rows) && Filed(t) && AllOf(t, key)
    ensures other != key ==> RowsFor(rows + t, other) == RowsFor(rows, other)
    ensures Filed(rows + t)
  {
    hide RowId;
    UpsertApart(rows, t, key, other);
  }

  lemma UpsertApart(rows: Rows, t: Rows, key: string, other: string)
    requires Filed(rows) && Filed(t) && AllOf(t, key)
    ensures other != key ==> RowsFor(rows + t, other) == RowsFor(rows, other)
  {
    SharedIds(rows, t, key);
    hide Filed;
  }

  /** Replacing one key's rows. */
  function Replaced(rows: Rows, d: Document): Rows {
    WithoutKey(rows, Strip(d.stableKey)) + DocumentTable(d)
  }

  lemma WithoutKeyRows(rows: Rows, key: string, t: Rows, other: string)
    requires Filed(rows) && AllOf(t, key)
    ensures Filed(WithoutKey(rows, key))
    ensures other != key ==> RowsFor(WithoutKey(rows, key), other) == RowsFor(rows, other)
    ensures RowsFor(WithoutKey(rows, key) + t, key) == t
  {
    hide RowId;
  }

  lemma ReplacedExact(rows: Rows, d: Document, other: string)
    requires Filed(rows)
    ensures Filed(Replaced(rows, d))
    ensures RowsFor(Replaced(rows, d), other) ==
            if other == Strip(d.stableKey) then DocumentTable(d) else RowsFor(rows, other)
  {
    DocumentTableFiled(d);
    hide Strip, DocumentTable, Filed, AllOf, RowsFor, WithoutKey;
    var key, t := Strip(d.stableKey), DocumentTable(d);
    WithoutKeyRows(rows, key, t, other);
    UpsertKeepsOthers(WithoutKey(rows, key), t, key, other);
  }

  lemma StaleRow(rows: Rows, t: Rows, key: string, id: string)
    requires AllOf(t, key) && (id in rows && id in t ==> rows[id].stableKey == key)
    ensures var kept := (rows + t) - (RowsFor(rows + t, key).Keys - t.Keys);
            var want := WithoutKey(rows, key) + t;
            (id in kept <==> id in want) && (id in kept ==> kept[id] == want[id])
  {
  }

  lemma DeleteStaleRows(rows: Rows, t: Rows, key: string)
    requires Filed(rows) && Filed(t) && AllOf(t, key)
    ensures (rows + t) - (RowsFor(rows + t, key).Keys - t.Keys) == WithoutKey(rows, key) + t
  {
    SharedIds(rows, t, key);
    hide Filed, RowsFor, WithoutKey;
    forall id {
      StaleRow(rows, t, key, id);
    }
  }

  /** Upserting and then deleting the key's rows that are not in the upsert is replacing the key's rows. */
  lemma UpsertThenDeleteStale(rows: Rows, d: Document, ids: set<string>)
    requires Filed(rows) && ids == DocumentTable(d).Keys
    ensures var up := rows + DocumentTable(d);
            up - (RowsFor(up, Strip(d.stableKey)).Keys - ids) == Replaced(rows, d)
  {
    DocumentTableFiled(d);
    DeleteStaleRows(rows, DocumentTable(d), Strip(d.stableKey));
  }

  // ----- the backend -----

  /** What a store operation does: works, raises an error of a corrupt store, or raises another error. */
  datatype Outcome = Works | Corrupt | Broken

  /** How a publish ended: with the document published or not, after a repair or not, and, when it was not
      published, whether its rows had been written before the error. */
  datatype Report = Report(published: bool, repaired: bool, written: bool)

  datatype Event = Published(document: Document, report: Report) | Queried(repaired: bool)

  class ChromaCorpusBackend {
    var rows: Rows
    var isOpen: bool
    var repairEvents: nat
    var calls: nat
    const outcome: nat -> Outcome

    constructor (outcome: nat -> Outcome)
      ensures rows == map[] && isOpen && repairEvents == 0 && this.outcome == outcome
    {
      rows := map[];
      isOpen := true;
      repairEvents := 0;
      calls := 0;
      this.outcome := outcome;
    }

    /** The collection is open and no call will fail from here on. */
    ghost predicate Healthy()
      reads this`isOpen, this`calls
    {
      isOpen && forall n :: n >= calls ==> outcome(n) == Works
    }

    /** The collection is open, and from here on at most one call fails, with an error of a corrupt store. */
    ghost predicate Repairable()
      reads this`isOpen, this`calls
    {
      && isOpen && (forall n :: n >= calls ==> outcome(n) != Broken)
      && forall m, n :: calls <= m < n ==> outcome(m) == Works || outcome(n) == Works
    }

    /** No call from here on fails, once the collection is open. */
    ghost predicate Sound()
      reads this`calls
    {
      forall n :: n >= calls ==> outcome(n) == Works
    }

    /** One call into the collection. Without an open collection it raises at once. */
    method Call() returns (o: Outcome)
      modifies this`calls
      ensures !isOpen ==> o == Broken
      ensures isOpen ==> o == outcome(old(calls))
      ensures calls == old(calls) + if isOpen then 1 else 0
      ensures old(Repairable()) ==> if o == Works then Repairable() else o == Corrupt && Sound()
    {
      if !isOpen {
        return Broken;
      }
      o := outcome(calls);
      calls := calls + 1;
    }

    /** `collection.upsert`; a batch that names an id twice is refused. */
    method Upsert(d: Document, sections: seq<Section>) returns (o: Outcome)
      modifies this`calls, this`rows
      ensures rows == if o == Works then old(rows) + Table(d, sections) else old(rows)
      ensures o == Works ==> DistinctIndexes(sections)
      ensures old(Healthy()) ==> Healthy() && o == if DistinctIndexes(sections) then Works else Broken
      ensures old(Repairable()) && DistinctIndexes(sections) ==> if o == Works then Repairable() else o == Corrupt && Sound()
      ensures o == Corrupt ==> calls == old(calls) + 1 && outcome(old(calls)) == Corrupt
      ensures calls >= old(calls)
    {
      if !DistinctIndexes(sections) {
        return Broken;
      }
      o := Call();
      if o == Works {
        rows := rows + Table(d, sections);
      }
    }

    method DeleteIds(ids: set<string>) returns (o: Outcome)
      modifies this`calls, this`rows
      ensures rows == if o == Works then old(rows) - ids else old(rows)
      ensures old(Healthy()) ==> Healthy() && o == Works
      ensures old(Repairable()) ==> if o == Works then Repairable() else o == Corrupt && Sound()
      ensures o == Corrupt ==> calls == old(calls) + 1 && outcome(old(calls)) == Corrupt
      ensures calls >= old(calls)
    {
      o := Call();
      if o == Works {
        rows := rows - ids;
      }
    }

    /** `_publish_document_unlocked`. */
    method PublishUnlocked(d: Document) returns (o: Outcome, written: bool)
      requires Filed(rows)
      modifies this`calls, this`rows
      ensures o == Works ==> rows == Replaced(old(rows), d) && Strip(d.stableKey) != "" && ShowsSections(rows, d)
      ensures o == Works || written ==> TextIndexesDistinct(d.sections) && HasSections(rows, d)
      ensures o != Works ==> rows == if written then old(rows) + DocumentTable(d) else old(rows)
      ensures old(Healthy()) ==>
                Healthy() && o == if Strip(d.stableKey) != "" && TextIndexesDistinct(d.sections) then Works else Broken
      ensures old(Repairable()) && Strip(d.stableKey) != "" && TextIndexesDistinct(d.sections) ==>
                if o == Works then Repairable() else o == Corrupt && Sound()
      ensures o == Corrupt ==> exists n :: old(calls) <= n < calls && outcome(n) == Corrupt
    {
      hide Replaced, RowsFor, Strip, Filed, Filled, Table, DistinctIndexes, TextIndexesDistinct, HasSections, ShowsSections, HasText;
      FilledMembers(d.sections);
      if TextIndexesDistinct(d.sections) {
        PublishShows(rows, d);
      }
      var key := Strip(d.stableKey);
      if key == "" {
        return Broken, false;
      }
      if d.sections == [] {
        NoSections(rows, d);
        o := DeleteIds(RowsFor(rows, key).Keys);
        return o, false;
      }
      var sections := Filled(d.sections);
      var ids := Table(d, sections).Keys;
      written := false;
      if sections != [] {
        o := Upsert(d, sections);
        if o != Works {
          return;
        }
        written := true;
      } else {
        assert rows + Table(d, sections) == rows by { EmptyTable(d); }
      }
      o := Call();
      if o != Works {
        return;
      }
      var stale := RowsFor(rows, key).Keys - ids;
      UpsertThenDeleteStale(old(rows), d, ids);
      if stale != {} {
        o := DeleteIds(stale);
      } else {
        assert rows - {} == rows;
      }
      NoDuplicates(sections);
    }

    /** Quarantining the corrupt store and opening a new, empty one; the new one may fail to open. */
    method RepairAndReopen() returns (reopened: bool)
      modifies this
      ensures rows == map[] && repairEvents == old(repairEvents) + 1 && isOpen == reopened
      ensures old(Sound()) ==> Healthy()
    {
      rows := map[];
      isOpen := false;
      repairEvents := repairEvents + 1;
      reopened := outcome(calls) == Works;
      calls := calls + 1;
      isOpen := reopened;
    }

    /** `publish_document`: one try, and after a corruption error one repair and one more try. Its report
        determines the rows that are left. One corruption error, at whatever call, keeps no document from being
        published, and without one nothing is thrown away. */
    method PublishDocument(d: Document) returns (r: Report)
      requires Filed(rows)
      modifies this
      ensures var base := if r.repaired then map[] else old(rows);
              rows == if r.published then Replaced(base, d) else if r.written then base + DocumentTable(d) else base
      ensures Filed(rows)
      ensures r.published ==> !r.written && Strip(d.stableKey) != "" && ShowsSections(rows, d)
      ensures r.published || r.written ==> TextIndexesDistinct(d.sections) && HasSections(rows, d)
      ensures repairEvents == old(repairEvents) + if r.repaired then 1 else 0
      ensures old(Healthy()) ==>
                !r.repaired && (r.published <==> Strip(d.stableKey) != "" && TextIndexesDistinct(d.sections))
      ensures old(Repairable()) && Strip(d.stableKey) != "" && TextIndexesDistinct(d.sections) ==> r.published
      ensures r.repaired ==> exists n :: n >= old(calls) && outcome(n) == Corrupt
    {
      hide Replaced, DocumentTable, Strip, RowId, TextIndexesDistinct, HasSections, ShowsSections;
      PublishFiled(rows, d);
      PublishFiled(map[], d);
      var o, written := PublishUnlocked(d);
      if o != Corrupt {
        return Report(o == Works, false, o != Works && written);
      }
      var reopened := RepairAndReopen();
      if !reopened {
        return Report(false, true, false);
      }
      o, written := PublishUnlocked(d);
      return Report(o == Works, true, o != Works && written);
    }

    /** `is_empty`, like every query, repairs a corrupt store once and then asks again. */
    method IsEmpty() returns (empty: Option<bool>, repaired: bool)
      modifies this
      ensures rows == if repaired then map[] else old(rows)
      ensures empty.Some? ==> empty.value == (rows == map[])
      ensures old(Repairable()) ==> empty.Some?
      ensures repaired <==> old(isOpen) && outcome(old(calls)) == Corrupt
    {
      var o := Call();
      if o == Works {
        return Some(rows == map[]), false;
      }
      if o == Broken {
        return None, false;
      }
      var reopened := RepairAndReopen();
      if !reopened {
        return None, true;
      }
      o := Call();
      return if o == Works then Some(rows == map[]) else None, true;
    }

    /** A run of publishes, each followed by a query. The rows left are those the log of the run describes. */
    method PublishAll(documents: seq<Document>) returns (log: seq<Event>)
      requires rows == map[]
      modifies this
      ensures rows == AfterLog(log) && Filed(rows) && Reported(log)
      ensures |log| == 2 * |documents|
      ensures forall i :: 0 <= i < |documents| ==> log[2 * i].Published? && log[2 * i].document == documents[i]
    {
      hide Replaced, DocumentTable, RowId, HasSections, ShowsSections, TextIndexesDistinct;
      log := [];
      for i := 0 to |documents|
        invariant rows == AfterLog(log) && Filed(rows) && Reported(log) && |log| == 2 * i
        invariant forall j :: 0 <= j < i ==> log[2 * j].Published? && log[2 * j].document == documents[j]
      {
        var r := PublishDocument(documents[i]);
        var e := Published(documents[i], r);
        assert (log + [e])[..|log|] == log;
        log := log + [e];
        var empty, repaired := IsEmpty();
        assert (log + [Queried(repaired)])[..|log|] == log;
        log := log + [Queried(repaired)];
      }
    }
  }

  lemma NoSections(rows: Rows, d: Document)
    requires d.sections == []
    ensures rows - RowsFor(rows, Strip(d.stableKey)).Keys == Replaced(rows, d)
    ensures DistinctIndexes(Filled(d.sections))
  {
    hide Strip;
  }

  lemma EmptyTable(d: Document)
    ensures Table(d, []) == map[]
  {
  }

  lemma NoDuplicates(sections: seq<Section>)
    ensures sections == [] ==> DistinctIndexes(sections)
  {
  }

  lemma PublishFiled(rows: Rows, d: Document)
    requires Filed(rows)
    ensures Filed(Replaced(rows, d)) && Filed(rows + DocumentTable(d))
  {
    DocumentTableFiled(d);
    hide Strip, DocumentTable, Filed, AllOf;
    ReplacedExact(rows, d, "");
    UpsertKeepsOthers(rows, DocumentTable(d), Strip(d.stableKey), "");
  }

  // ----- any run -----

  /** The rows left by a run, from its log alone. */
  function AfterLog(log: seq<Event>): Rows {
    if log == [] then map[]
    else
      var rows := AfterLog(log[..|log| - 1]);
      match log[|log| - 1]
      case Queried(repaired) => if repaired then map[] else rows
      case Published(d, r) =>
        var base := if r.repaired then map[] else rows;
        if r.published then Replaced(base, d) else if r.written then base + DocumentTable(d) else base
  }

  /** The key's last published document since the last repair. */
  function Latest(log: seq<Event>, key: string): Option<Document> {
    if log == [] then None
    else
      var front := log[..|log| - 1];
      match log[|log| - 1]
      case Queried(repaired) => if repaired then None else Latest(front, key)
      case Published(d, r) =>
        if r.published && Strip(d.stableKey) == key then Some(d)
        else if r.repaired then None
        else Latest(front, key)
  }

  /** A publish of the key broke off halfway, and neither a repair nor a publish has put it right since. */
  predicate Halfway(log: seq<Event>, key: string) {
    log != [] &&
    var front := log[..|log| - 1];
    match log[|log| - 1]
    case Queried(repaired) => !repaired && Halfway(front, key)
    case Published(d, r) =>
      if Strip(d.stableKey) == key && (r.published || r.written) then r.written
      else !r.repaired && Halfway(front, key)
  }

  ghost predicate Reported(log: seq<Event>) {
    forall e :: e in log && e.Published? && e.report.published ==> !e.report.written
  }

  /** The rows of one key after a run, from the events that concern it: a published document's rows replace
      them, a half-written document's are added to them, and a repair takes them all away. */
  function KeyRows(log: seq<Event>, key: string): Rows {
    if log == [] then map[]
    else
      var before := KeyRows(log[..|log| - 1], key);
      match log[|log| - 1]
      case Queried(repaired) => if repaired then map[] else before
      case Published(d, r) =>
        var base := if r.repaired then map[] else before;
        if Strip(d.stableKey) != key then base
        else if r.published then DocumentTable(d)
        else if r.written then base + DocumentTable(d)
        else base
  }

  /** Over any run, whatever fails and whenever the store is repaired, the rows of a key are those its own
      events leave: no event of another key touches them. */
  lemma {:induction false} RunKeepsKeyRows(log: seq<Event>, key: string)
    requires Reported(log)
    ensures Filed(AfterLog(log)) && RowsFor(AfterLog(log), key) == KeyRows(log, key)
  {
    hide Replaced, DocumentTable, Strip, Filed, RowsFor;
    NoRows(key);
    if log != [] {
      var front, e := log[..|log| - 1], log[|log| - 1];
      assert e in log;
      RunKeepsKeyRows(front, key);
      if e.Published? {
        var base := if e.report.repaired then map[] else AfterLog(front);
        PublishFiled(base, e.document);
        ReplacedExact(base, e.document, key);
        if Strip(e.document.stableKey) == key {
          WrittenAddsRows(base, e.document);
        } else {
          WrittenKeepsOthers(base, e.document, key);
        }
      }
    }
  }

  /** The rows of the key's last published document since the last repair. */
  function LatestRows(log: seq<Event>, key: string): Rows {
    if Latest(log, key).Some? then DocumentTable(Latest(log, key).value) else map[]
  }

  /** The rows that publishes of the key have written and not finished since it was last published or the
      store was last repaired; of a row written twice the later one. */
  function HalfWritten(log: seq<Event>, key: string): Rows {
    if log == [] then map[]
    else
      var before := HalfWritten(log[..|log| - 1], key);
      match log[|log| - 1]
      case Queried(repaired) => if repaired then map[] else before
      case Published(d, r) =>
        var base := if r.repaired then map[] else before;
        if Strip(d.stableKey) != key then base
        else if r.published then map[]
        else if r.written then base + DocumentTable(d)
        else base
  }

  lemma {:induction false} OldAndNewTogether(log: seq<Event>, key: string)
    requires Reported(log)
    ensures KeyRows(log, key) == LatestRows(log, key) + HalfWritten(log, key)
    ensures !Halfway(log, key) ==> HalfWritten(log, key) == map[]
  {
    hide DocumentTable, Strip;
    if log != [] {
      var front, e := log[..|log| - 1], log[|log| - 1];
      assert e in log;
      OldAndNewTogether(front, key);
    }
  }

  lemma AddsNothing(m: Rows, a: Rows)
    ensures m + a == m <==> forall id :: id in a ==> id in m && m[id] == a[id]
  {
    if m + a == m {
      forall id | id in a ensures id in m && m[id] == a[id] {
        assert id in m + a && (m + a)[id] == a[id];
      }
    }
  }

  /** Over any run the rows of a key are its last published document's since the last repair, with what was
      half-written since on top. They are that document's alone exactly when the half-written rows add
      nothing to it, and in particular when no publish of the key broke off halfway. */
  lemma RunRefinesLatest(log: seq<Event>, key: string)
    requires Reported(log)
    ensures RowsFor(AfterLog(log), key) == LatestRows(log, key) + HalfWritten(log, key)
    ensures RowsFor(AfterLog(log), key) == LatestRows(log, key) <==>
            forall id :: id in HalfWritten(log, key) ==>
              id in LatestRows(log, key) && LatestRows(log, key)[id] == HalfWritten(log, key)[id]
    ensures !Halfway(log, key) ==> RowsFor(AfterLog(log), key) == LatestRows(log, key)
  {
    hide RowsFor, AfterLog, LatestRows, HalfWritten, Halfway, Reported;
    RunKeepsKeyRows(log, key);
    OldAndNewTogether(log, key);
    AddsNothing(LatestRows(log, key), HalfWritten(log, key));
  }

  /** One section with text. */
  function OneSection(key: string, index: int, content: string): Document {
    Document(key, "", [Section(index, content, "", "")])
  }

  /** A document is published and its successor written halfway: the key shows the rows of both, which is
      neither what was published nor what was to be. */
  lemma HalfwayShowsBoth(key: string, old': string, new': string)
    requires Strip(key) == key && !Blank(old') && !Blank(new')
    ensures var d, e := OneSection(key, 0, old'), OneSection(key, 1, new');
            var log := [Published(d, Report(true, false, false)), Published(e, Report(false, false, true))];
            var rows := RowsFor(AfterLog(log), key);
            && Halfway(log, key) && |DocumentTable(d)| == |DocumentTable(e)| == 1 && |rows| == 2
            && rows == DocumentTable(d) + DocumentTable(e)
  {
    var d, e := OneSection(key, 0, old'), OneSection(key, 1, new');
    OneRow(key, 0, old');
    OneRow(key, 1, new');
    RowIdInjective(key, 0, key, 1);
    hide OneSection, Strip, RowId, DocumentTable, RowsFor, AfterLog, Blank, KeyRows, Halfway;
    PublishedThenBroken(d, e, key);
    RunKeepsKeyRows([Published(d, Report(true, false, false)), Published(e, Report(false, false, true))], key);
    TwoRows(DocumentTable(d), DocumentTable(e), RowId(key, 0), RowId(key, 1));
  }

  lemma PublishedThenBroken(d: Document, e: Document, key: string)
    requires Strip(d.stableKey) == key && Strip(e.stableKey) == key
    ensures var log := [Published(d, Report(true, false, false)), Published(e, Report(false, false, true))];
            Halfway(log, key) && KeyRows(log, key) == DocumentTable(d) + DocumentTable(e)
  {
    hide Strip, DocumentTable;
    var first, second := Published(d, Report(true, false, false)), Published(e, Report(false, false, true));
    assert [first, second][..1] == [first] && [first][..0] == [];
    assert KeyRows([first], key) == DocumentTable(d);
  }

  lemma OneRow(key: string, index: int, content: string)
    requires Strip(key) == key && !Blank(content)
    ensures Strip(OneSection(key, index, content).stableKey) == key
    ensures DocumentTable(OneSection(key, index, content)).Keys == {RowId(key, index)}
    ensures |DocumentTable(OneSection(key, index, content))| == 1
  {
    StripBlank(content);
    hide Strip, Blank, RowId;
    var d := OneSection(key, index, content);
    assert d.sections[..0] == [] && Filled(d.sections) == d.sections;
    assert Table(d, d.sections) == map[RowId(key, index) := RowOf(d, d.sections[0])];
  }

  lemma TwoRows(a: Rows, b: Rows, i: string, j: string)
    requires a.Keys == {i} && b.Keys == {j} && i != j
    ensures |a + b| == 2
  {
    assert (a + b).Keys == {i, j};
    assert |(a + b).Keys| == 2;
  }

  lemma NoRows(key: string)
    ensures RowsFor(map[], key) == map[] && Filed(map[])
  {
  }

  lemma WrittenKeepsOthers(rows: Rows, d: Document, other: string)
    requires Filed(rows) && Strip(d.stableKey) != other
    ensures RowsFor(rows + DocumentTable(d), other) == RowsFor(rows, other)
  {
    DocumentTableFiled(d);
    UpsertKeepsOthers(rows, DocumentTable(d), Strip(d.stableKey), other);
  }

  lemma WrittenAddsRows(rows: Rows, d: Document)
    requires Filed(rows)
    ensures RowsFor(rows + DocumentTable(d), Strip(d.stableKey)) == RowsFor(rows, Strip(d.stableKey)) + DocumentTable(d)
  {
    DocumentTableFiled(d);
    hide Strip, DocumentTable, RowId;
    SharedIds(rows, DocumentTable(d), Strip(d.stableKey));
  }
}
