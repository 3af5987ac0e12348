/** The databases behind the cluster: every step run on the keys of src/storage/chunk_store.cpp
    as well. Each storage node's database keeps holding exactly the map the cluster gives it,
    so read safety holds of what the stores really answer. */
module Disks {
  import opened Text
  import opened Coordinator
  import opened ChunkStore
  import opened Cluster

  type Database = map<string, string>

  /** Every storage node's database, by address. */
  type Databases = map<string, Database>

  function DiskAt(disks: Databases, addr: string): Database {
    if addr in disks then disks[addr] else map[]
  }

  function DiskWrite(disks: Databases, addr: string, id: string, v: nat, data: string): Databases {
    disks[addr := DiskAt(disks, addr)[MakeKey(id, v) := data]]
  }

  function DiskDrop(disks: Databases, addr: string, id: string): Databases {
    disks[addr := DeleteRange(DiskAt(disks, addr), MakeKey(id, 0), ChunkPrefix(id) + "~")]
  }

  function DiskWriteAll(disks: Databases, addrs: seq<string>, id: string, v: nat, data: string): Databases {
    if addrs == [] then disks
    else DiskWrite(DiskWriteAll(disks, addrs[..|addrs| - 1], id, v, data), addrs[|addrs| - 1], id, v, data)
  }

  function DiskDropAll(disks: Databases, addrs: seq<string>, id: string): Databases {
    if addrs == [] then disks
    else DiskDrop(DiskDropAll(disks, addrs[..|addrs| - 1], id), addrs[|addrs| - 1], id)
  }

  /** What a step does to the databases. */
  ghost function DisksAfter(disks: Databases, s: State, step: Step): Databases
    requires Enabled(s, step)
  {
    match step
    case Put(id, _, _, data, _, _, _) =>
      var written := DiskWriteAll(disks, Acked(s, step), id, NextVersion(s.table, id), data);
      if PutSucceeds(s, step) then written else DiskDropAll(written, Acked(s, step), id)
    case Store(id) =>
      var job := s.jobs[id];
      DiskWrite(disks, ResolveDestination(job), id, job.version, job.phase.fetched.value)
    case RepairWrite(addr, c) => DiskWrite(disks, addr, c.id, c.version, c.data)
    case Drop(addr, id) => DiskDrop(disks, addr, id)
    case _ => disks
  }

  /** Every database holds exactly what the cluster says its node stores. */
  ghost predicate Backed(disks: Databases, stores: Stores) {
    forall addr :: Refines(DiskAt(disks, addr), At(stores, addr))
  }

  // ---------------------------------------------------------------- single operations

  lemma WriteBacked(disks: Databases, stores: Stores, addr: string, id: string, v: nat, data: string)
    requires Backed(disks, stores) && Representable((id, v))
    ensures Backed(DiskWrite(disks, addr, id, v, data), Written(stores, addr, id, v, data))
  {
    var disks', stores' := DiskWrite(disks, addr, id, v, data), Written(stores, addr, id, v, data);
    forall a ensures Refines(DiskAt(disks', a), At(stores', a)) {
      assert Refines(DiskAt(disks, a), At(stores, a));
      if a == addr {
        WriteRefines(DiskAt(disks, a), At(stores, a), id, v, data);
      }
    }
  }

  lemma DropBacked(disks: Databases, stores: Stores, addr: string, id: string)
    requires Backed(disks, stores) && Clear(At(stores, addr), id)
    ensures Backed(DiskDrop(disks, addr, id), Dropped(stores, addr, id))
  {
    var disks', stores' := DiskDrop(disks, addr, id), Dropped(stores, addr, id);
    forall a ensures Refines(DiskAt(disks', a), At(stores', a)) {
      assert Refines(DiskAt(disks, a), At(stores, a));
      if a == addr {
        RemoveRefines(DiskAt(disks, a), At(stores, a), id);
      }
    }
  }

  lemma {:induction false} WriteAllBacked(disks: Databases, stores: Stores, addrs: seq<string>, id: string, v: nat, data: string)
    requires Backed(disks, stores) && Representable((id, v))
    ensures Backed(DiskWriteAll(disks, addrs, id, v, data), WriteAll(stores, addrs, id, v, data))
  {
    if addrs != [] {
      var init := addrs[..|addrs| - 1];
      WriteAllBacked(disks, stores, init, id, v, data);
      WriteBacked(DiskWriteAll(disks, init, id, v, data), WriteAll(stores, init, id, v, data), addrs[|addrs| - 1], id, v, data);
    }
  }

  ghost predicate AllClear(stores: Stores, id: string) {
    forall addr :: Clear(At(stores, addr), id)
  }

  lemma DroppedClear(stores: Stores, addr: string, id: string)
    requires AllClear(stores, id)
    ensures AllClear(Dropped(stores, addr, id), id)
  {
    var stores' := Dropped(stores, addr, id);
    forall a ensures Clear(At(stores', a), id) {
      assert Clear(At(stores, a), id);
    }
  }

  lemma {:induction false} DropAllBacked(disks: Databases, stores: Stores, addrs: seq<string>, id: string)
    requires Backed(disks, stores) && AllClear(stores, id)
    ensures Backed(DiskDropAll(disks, addrs, id), DropAll(stores, addrs, id)) && AllClear(DropAll(stores, addrs, id), id)
  {
    if addrs != [] {
      var init, last := addrs[..|addrs| - 1], addrs[|addrs| - 1];
      DropAllBacked(disks, stores, init, id);
      assert Clear(At(DropAll(stores, init, id), last), id);
      DropBacked(DiskDropAll(disks, init, id), DropAll(stores, init, id), last, id);
      DroppedClear(DropAll(stores, init, id), last, id);
    }
  }

  /** No stored chunk is nested in an id that stands apart from all known ones. */
  lemma ApartIsClear(s: State, id: string, addr: string)
    requires DataInv(s) && StandsApart(s.table, id)
    ensures Clear(At(s.stores, addr), id)
  {
    forall p | p in At(s.stores, addr) ensures !Nested(p.0, id) {
      assert p in s.stores[addr] && p.0 in s.table;
    }
  }

  lemma {:induction false} WriteAllClear(stores: Stores, addrs: seq<string>, id: string, v: nat, data: string)
    requires AllClear(stores, id)
    ensures AllClear(WriteAll(stores, addrs, id, v, data), id)
  {
    if addrs != [] {
      var init, last := addrs[..|addrs| - 1], addrs[|addrs| - 1];
      WriteAllClear(stores, init, id, v, data);
      var before, after := WriteAll(stores, init, id, v, data), WriteAll(stores, addrs, id, v, data);
      forall a ensures Clear(At(after, a), id) {
        assert Clear(At(before, a), id);
      }
    }
  }

  // ---------------------------------------------------------------- steps and runs

  lemma PutBacked(disks: Databases, s: State, p: Step)
    requires DataInv(s) && Backed(disks, s.stores) && p.Put? && PutEnabled(s, p)
    ensures Backed(DisksAfter(disks, s, p), AfterPut(s, p).stores)
  {
    var v, acked := NextVersion(s.table, p.id), Acked(s, p);
    WriteAllBacked(disks, s.stores, acked, p.id, v, p.data);
    if !PutSucceeds(s, p) {
      forall addr ensures Clear(At(s.stores, addr), p.id) {
        ApartIsClear(s, p.id, addr);
      }
      WriteAllClear(s.stores, acked, p.id, v, p.data);
      DropAllBacked(DiskWriteAll(disks, acked, p.id, v, p.data), WriteAll(s.stores, acked, p.id, v, p.data), acked, p.id);
    }
  }

  lemma StoreBacked(disks: Databases, s: State, id: string)
    requires DataInv(s) && Backed(disks, s.stores) && id in s.jobs && JobEnabled(s.stores, s.jobs[id], Step.Store(id))
    ensures var job := s.jobs[id];
      Backed(DiskWrite(disks, ResolveDestination(job), id, job.version, job.phase.fetched.value), AfterStore(s, id).stores)
  {
    var job := s.jobs[id];
    assert JobHolds(s.table[id], job, id, s.puts);
    WriteBacked(disks, s.stores, ResolveDestination(job), id, job.version, job.phase.fetched.value);
  }

  lemma OtherStepsStoreNothing(s: State, step: Step)
    requires Enabled(s, step) && !step.Put? && !step.Store? && !step.RepairWrite? && !step.Drop?
    ensures After(s, step).stores == s.stores
  {}

  /** Every step run on the databases does to them what it does to the stores. */
  lemma StepBacked(disks: Databases, s: State, step: Step)
    requires DataInv(s) && Backed(disks, s.stores) && Enabled(s, step)
    ensures Backed(DisksAfter(disks, s, step), After(s, step).stores)
  {
    if step.Put? {
      PutBacked(disks, s, step);
    } else if step.Store? {
      StoreBacked(disks, s, step.id);
    } else if step.RepairWrite? {
      WriteBacked(disks, s.stores, step.addr, step.copy.id, step.copy.version, step.copy.data);
    } else if step.Drop? {
      DropBacked(disks, s.stores, step.addr, step.id);
    } else {
      OtherStepsStoreNothing(s, step);
    }
  }

  ghost function DisksEnd(disks: Databases, s: State, steps: seq<Step>): Databases
    requires Run(s, steps)
    decreases |steps|
  {
    if steps == [] then disks else DisksEnd(DisksAfter(disks, s, steps[0]), After(s, steps[0]), steps[1..])
  }

  lemma {:induction false} RunBacked(disks: Databases, s: State, steps: seq<Step>)
    requires DataInv(s) && Backed(disks, s.stores) && Run(s, steps)
    ensures Backed(DisksEnd(disks, s, steps), EndOf(s, steps).stores)
    decreases |steps|
  {
    if steps != [] {
      StepBacked(disks, s, steps[0]);
      StepKeepsData(s, steps[0]);
      RunBacked(DisksAfter(disks, s, steps[0]), After(s, steps[0]), steps[1..]);
    }
  }

  // ---------------------------------------------------------------- reads

  /** For a known chunk a database answers a read exactly as the cluster's store serves it. */
  lemma ReadIsServed(disks: Databases, s: State, addr: string, id: string, min: nat, r: Option<(nat, string)>)
    requires DataInv(s) && Backed(disks, s.stores) && id in s.table && Reads(DiskAt(disks, addr), id, min, r)
    ensures r.Some? ==> Serves(s.stores, addr, id, min, r.value.0, r.value.1)
    ensures r.None? ==> !UpToDate(s.stores, addr, id, min)
  {
    assert StandsApart(s.table, id);
    ApartIsClear(s, id, addr);
    assert Refines(DiskAt(disks, addr), At(s.stores, addr));
    ReadsExactly(DiskAt(disks, addr), At(s.stores, addr), id, min, r);
  }

  /** Read safety of the stores themselves. A get reads the metadata after `before`, and any
      node's database answers its read after `during`, with repairs, copies and puts going on.
      It returns an acknowledged put no older than its floor; when no put of the chunk is
      acknowledged meanwhile and the floor is not below the metadata's version, it returns the
      last acknowledged put. */
  lemma DiskReadSafety(nodes: seq<NodeEntry>, before: seq<Step>, during: seq<Step>,
                       id: string, min: nat, addr: string, r: (nat, string))
    requires Run(Initial(nodes), before) && Run(EndOf(Initial(nodes), before), during)
    requires id in EndOf(Initial(nodes), before).table
    requires var s := EndOf(Initial(nodes), before);
      var disks := DisksEnd(DisksEnd(map[], Initial(nodes), before), s, during);
      Reads(DiskAt(disks, addr), id, Target(min, s.table[id].version), Some(r))
    ensures var s := EndOf(Initial(nodes), before);
      var t := EndOf(s, during);
      && (id, r.0) in t.puts && t.puts[(id, r.0)] == r.1 && id in t.table
      && Target(min, s.table[id].version) <= r.0 <= t.table[id].version
      && (LastPut(s, during, id).None? && (min == 0 || s.table[id].version <= min) ==>
            LastPut(Initial(nodes), before, id) == Some(r))
  {
    var s := EndOf(Initial(nodes), before);
    var disks := DisksEnd(map[], Initial(nodes), before);
    RunBacked(map[], Initial(nodes), before);
    RunKeepsData(Initial(nodes), before);
    RunBacked(disks, s, during);
    RunKeepsData(s, during);
    VersionIsLastPut(s, during, id);
    ReadIsServed(DisksEnd(disks, s, during), EndOf(s, during), addr, id, Target(min, s.table[id].version), Some(r));
    ReadSafety(nodes, before, during, id, min, addr, r.0, r.1);
  }

  /** Why ids must stand apart: with a chunk and one nested in it stored on a node, the database
      answers a read of the outer chunk with the inner one's bytes, under a version the outer
      one never had. */
  lemma NestedPutIsRead(disks: Databases, addr: string, id: string, u: nat, v: nat, outer: string, inner: string)
    requires DiskAt(disks, addr) == map[] && u < v < MAX_VERSION
    ensures var written := DiskWrite(DiskWrite(disks, addr, id, u, outer), addr, id + "/" + Pad10(v), 1, inner);
      Reads(DiskAt(written, addr), id, u, Some((v, inner)))
  {
    NestedIdIsRead(id, u, v, 1, outer, inner);
    var db := map[MakeKey(id, u) := outer][MakeKey(id + "/" + Pad10(v), 1) := inner];
    assert DiskAt(DiskWrite(DiskWrite(disks, addr, id, u, outer), addr, id + "/" + Pad10(v), 1, inner), addr) == db;
    FloorBelow(db, id, u, v, inner);
  }

  lemma FloorBelow(db: Database, id: string, min: nat, v: nat, data: string)
    requires Reads(db, id, 0, Some((v, data))) && min <= v
    ensures Reads(db, id, min, Some((v, data)))
  {
    var found :| IsPredecessor(db, MakeKey(id, MAX_VERSION), found) && Some((v, data)) == ReadAt(db, id, 0, found);
    assert ReadAt(db, id, min, found) == Some((v, data));
  }
}
