/** The publishing object of brainstack/graph_backend_kuzu.py: a transaction of table statements, any of
    which may fail. */
module GraphBackend {
  import opened GraphPublish
  import opened Results

  /** The open connection. `faults(n)` tells whether the n-th statement sent raises; a statement that
      raises changes nothing. */
  class KuzuGraphBackend {
    var tables: Tables
    var begun: Option<Tables>
    var sent: nat
    const faults: nat -> bool

    constructor (faults: nat -> bool)
      ensures tables == NO_TABLES && begun == None && this.faults == faults
    {
      tables := NO_TABLES;
      begun := None;
      sent := 0;
      this.faults := faults;
    }

    /** What other connections see, and what is left when this one is closed: the tables as they were when
        the open transaction began, if there is one. */
    ghost function Durable(): Tables
      reads this
    {
      if begun.Some? then begun.value else tables
    }

    /** At most one statement from here on raises. */
    ghost predicate OneFault()
      reads this`sent
    {
      forall m, n :: sent <= m < n ==> !faults(m) || !faults(n)
    }

    /** No statement from here on raises. */
    ghost predicate Healthy()
      reads this`sent
    {
      forall n :: n >= sent ==> !faults(n)
    }

    /** One statement: its effect on the tables, or an error. */
    method Execute(effect: Tables) returns (ok: bool)
      modifies this`tables, this`sent
      ensures tables == if ok then effect else old(tables)
      ensures ok <==> !faults(old(sent))
      ensures sent == old(sent) + 1
      ensures old(OneFault()) ==> if ok then OneFault() else Healthy()
    {
      ok := !faults(sent);
      sent := sent + 1;
      if ok {
        tables := effect;
      }
    }

    /** `BEGIN TRANSACTION`, which is refused while a transaction is open. */
    method Begin() returns (ok: bool)
      modifies this`begun, this`sent
      ensures ok ==> old(begun) == None && begun == Some(tables)
      ensures !ok ==> begun == old(begun)
      ensures old(Healthy()) ==> Healthy() && (ok <==> old(begun) == None)
      ensures old(OneFault()) && old(begun) == None ==> if ok then OneFault() else Healthy()
    {
      ok := begun.None? && !faults(sent);
      sent := sent + 1;
      if ok {
        begun := Some(tables);
      }
    }

    method Commit() returns (ok: bool)
      modifies this`begun, this`sent
      ensures begun == if ok then None else old(begun)
      ensures old(Healthy()) ==> Healthy() && ok
      ensures old(OneFault()) ==> if ok then OneFault() else Healthy()
    {
      ok := !faults(sent);
      sent := sent + 1;
      if ok {
        begun := None;
      }
    }

    /** `ROLLBACK`, whose own failure is ignored and leaves the transaction open. */
    method RollbackTransaction()
      requires begun.Some?
      modifies this`tables, this`begun, this`sent
      ensures Durable() == old(Durable())
      ensures begun == None || (begun == old(begun) && tables == old(tables))
      ensures old(Healthy()) ==> begun == None && Healthy()
    {
      if !faults(sent) {
        tables := begun.value;
        begun := None;
      }
      sent := sent + 1;
    }

    method EnsureEntityRow(e: EntityRef) returns (ok: bool)
      modifies this`tables, this`sent
      ensures tables == if ok then EnsureEntity(old(tables), e) else old(tables)
      ensures old(Healthy()) ==> Healthy() && ok
      ensures old(OneFault()) ==> if ok then OneFault() else Healthy()
    {
      ok := Execute(EnsureEntity(tables, e));
    }

    method MergeStates(e: int, states: seq<Keyed<int, StateFields>>) returns (ok: bool)
      modifies this`tables, this`sent
      ensures ok ==> tables == old(tables).(states := MergeRows(old(tables).states, e, states))
      ensures old(Healthy()) ==> Healthy() && ok
      ensures old(OneFault()) ==> if ok then OneFault() else Healthy()
    {
      ghost var before := tables;
      for i := 0 to |states|
        invariant tables == before.(states := MergeRows(before.states, e, states[..i]))
        invariant old(Healthy()) ==> Healthy()
        invariant old(OneFault()) ==> OneFault()
      {
        assert states[..i + 1][..i] == states[..i];
        ok := Execute(tables.(states := tables.states[states[i].key := Owned(e, states[i].fields)]));
        if !ok {
          return;
        }
      }
      assert states[..|states|] == states;
      ok := true;
    }

    method MergeConflicts(e: int, conflicts: seq<Keyed<int, ConflictFields>>) returns (ok: bool)
      modifies this`tables, this`sent
      ensures ok ==> tables == old(tables).(conflicts := MergeRows(old(tables).conflicts, e, conflicts))
      ensures old(Healthy()) ==> Healthy() && ok
      ensures old(OneFault()) ==> if ok then OneFault() else Healthy()
    {
      ghost var before := tables;
      for i := 0 to |conflicts|
        invariant tables == before.(conflicts := MergeRows(before.conflicts, e, conflicts[..i]))
        invariant old(Healthy()) ==> Healthy()
        invariant old(OneFault()) ==> OneFault()
      {
        assert conflicts[..i + 1][..i] == conflicts[..i];
        ok := Execute(tables.(conflicts := tables.conflicts[conflicts[i].key := Owned(e, conflicts[i].fields)]));
        if !ok {
          return;
        }
      }
      assert conflicts[..|conflicts|] == conflicts;
      ok := true;
    }

    method MergeAliases(e: int, aliases: seq<Keyed<string, AliasFields>>) returns (ok: bool)
      modifies this`tables, this`sent
      ensures ok ==> tables == old(tables).(aliases := MergeRows(old(tables).aliases, e, aliases))
      ensures old(Healthy()) ==> Healthy() && ok
      ensures old(OneFault()) ==> if ok then OneFault() else Healthy()
    {
      ghost var before := tables;
      for i := 0 to |aliases|
        invariant tables == before.(aliases := MergeRows(before.aliases, e, aliases[..i]))
        invariant old(Healthy()) ==> Healthy()
        invariant old(OneFault()) ==> OneFault()
      {
        assert aliases[..i + 1][..i] == aliases[..i];
        ok := Execute(tables.(aliases := tables.aliases[aliases[i].key := Owned(e, aliases[i].fields)]));
        if !ok {
          return;
        }
      }
      assert aliases[..|aliases|] == aliases;
      ok := true;
    }

    method CreateRelations(e: int, rs: seq<Relation>, inferred: bool) returns (ok: bool)
      modifies this`tables, this`sent
      ensures ok ==> tables == AddRelations(old(tables), e, rs, inferred)
      ensures old(Healthy()) ==> Healthy() && ok
      ensures old(OneFault()) ==> if ok then OneFault() else Healthy()
    {
      hide CreateEdge, EnsureEntity;
      ghost var before := tables;
      for i := 0 to |rs|
        invariant tables == AddRelations(before, e, rs[..i], inferred)
        invariant old(Healthy()) ==> Healthy()
        invariant old(OneFault()) ==> OneFault()
      {
        assert rs[..i + 1][..i] == rs[..i];
        ok := EnsureEntityRow(rs[i].target);
        if !ok {
          return;
        }
        ok := Execute(CreateEdge(tables, e, rs[i], inferred));
        if !ok {
          return;
        }
      }
      assert rs[..|rs|] == rs;
      ok := true;
    }

    /** The deletions at the start of the transaction: the entity's rows that the snapshot does not list,
        and all its outgoing relations. */
    method DeleteStale(s: Snapshot) returns (ok: bool)
      modifies this`tables, this`sent
      ensures ok ==>
                tables == old(tables).(
                  states := DeleteRows(old(tables).states, s.entity.id, KeysOf(s.states)),
                  conflicts := DeleteRows(old(tables).conflicts, s.entity.id, KeysOf(s.conflicts)),
                  edges := DeleteOutgoing(DeleteOutgoing(old(tables).edges, s.entity.id, false), s.entity.id, true))
      ensures old(Healthy()) ==> Healthy() && ok
      ensures old(OneFault()) ==> if ok then OneFault() else Healthy()
    {
      hide DeleteRows, KeysOf, DeleteOutgoing;
      var e := s.entity.id;
      ok := Execute(tables.(states := DeleteRows(tables.states, e, KeysOf(s.states))));
      if !ok {
        return;
      }
      ok := Execute(tables.(conflicts := DeleteRows(tables.conflicts, e, KeysOf(s.conflicts))));
      if !ok {
        return;
      }
      ok := Execute(tables.(edges := DeleteOutgoing(tables.edges, e, false)));
      if !ok {
        return;
      }
      ok := Execute(tables.(edges := DeleteOutgoing(tables.edges, e, true)));
    }

    method ReplaceAliases(s: Snapshot) returns (ok: bool)
      modifies this`tables, this`sent
      ensures ok ==> tables == old(tables).(aliases := ReplaceRows(old(tables).aliases, s.entity.id, NamedAliases(s.aliases)))
      ensures old(Healthy()) ==> Healthy() && ok
      ensures old(OneFault()) ==> if ok then OneFault() else Healthy()
    {
      hide DeleteRows, KeysOf, NamedAliases;
      var e, aliases := s.entity.id, NamedAliases(s.aliases);
      ok := Execute(tables.(aliases := DeleteRows(tables.aliases, e, KeysOf(aliases))));
      if !ok {
        return;
      }
      ok := MergeAliases(e, aliases);
    }

    /** Everything between BEGIN and COMMIT. */
    method PublishRows(s: Snapshot) returns (ok: bool)
      modifies this`tables, this`sent
      ensures ok ==> tables == Published(old(tables), s)
      ensures old(Healthy()) ==> Healthy() && ok
      ensures old(OneFault()) ==> if ok then OneFault() else Healthy()
    {
      hide DeleteRows, KeysOf, NamedAliases, DeleteOutgoing, MergeRows, AddRelations;
      var e := s.entity.id;
      ok := EnsureEntityRow(s.entity);
      if !ok {
        return;
      }
      ok := DeleteStale(s);
      if !ok {
        return;
      }
      ok := MergeStates(e, s.states);
      if !ok {
        return;
      }
      ok := MergeConflicts(e, s.conflicts);
      if !ok {
        return;
      }
      ok := ReplaceAliases(s);
      if !ok {
        return;
      }
      assert tables == WithRows(old(tables), s);
      ok := CreateRelations(e, s.relations, false);
      if !ok {
        return;
      }
      ok := CreateRelations(e, s.inferred, true);
    }

    /** A committed publish has the whole effect of the snapshot. A failure at any statement, the first and
        the last included, leaves no effect to be seen, even if the rollback fails as well. On a connection
        without an open transaction nothing but a failing statement keeps a publish from committing, and it takes
        two of them to leave a transaction open. */
    method PublishEntitySubgraph(s: Snapshot) returns (ok: bool)
      modifies this
      ensures Durable() == if ok then Published(old(Durable()), s) else old(Durable())
      ensures ok ==> Holds(old(Durable()), Durable(), s)
      ensures ok ==> old(begun) == None && begun == None
      ensures old(begun) == None && begun == None ==> tables == if ok then Published(old(tables), s) else old(tables)
      ensures old(Healthy()) && old(begun) == None ==> Healthy() && ok
      ensures old(OneFault()) && old(begun) == None ==> begun == None && if ok then OneFault() else Healthy()
    {
      hide Published, Holds;
      PublishedHolds(Durable(), s);
      ok := Begin();
      if !ok {
        return;
      }
      ok := PublishRows(s);
      if ok {
        ok := Commit();
      }
      if !ok {
        RollbackTransaction();
      }
    }

    /** A run of publishes on a new store. The outcomes are whatever the failures make them; what is left
        then are the tables of `AfterRun`. */
    method PublishAll(snapshots: seq<Snapshot>) returns (run: seq<Publish>)
      requires begun == None && tables == NO_TABLES
      modifies this
      ensures |run| == |snapshots| && forall i :: 0 <= i < |run| ==> run[i].snapshot == snapshots[i]
      ensures Durable() == AfterRun(run)
      ensures old(Healthy()) ==> begun == None && forall i :: 0 <= i < |run| ==> run[i].committed
    {
      hide Published;
      run := [];
      for i := 0 to |snapshots|
        invariant |run| == i && forall j :: 0 <= j < i ==> run[j].snapshot == snapshots[j]
        invariant Durable() == AfterRun(run)
        invariant old(Healthy()) ==> Healthy() && begun == None && forall j :: 0 <= j < i ==> run[j].committed
      {
        var ok := PublishEntitySubgraph(snapshots[i]);
        assert (run + [Publish(snapshots[i], ok)])[..i] == run;
        run := run + [Publish(snapshots[i], ok)];
      }
    }
  }
}
