/** The limits of read safety: a get with a floor below the current version may return an
    older put, and a rollback delete that is lost lets a read return bytes never acknowledged. */
module StaleReads {
  import opened Text
  import opened Coordinator
  import opened Placement
  import opened Planner
  import opened Payload
  import opened ChunkStore
  import opened Cluster

  /** Any three nodes, the last with an address of its own. */
  ghost predicate Trio(ns: seq<NodeEntry>) {
    && |ns| == 3 && NodesOk(ns) && ns[2].address != ns[0].address && ns[2].address != ns[1].address
  }

  /** A put on the three nodes; the last may miss it. */
  function PutStep(ns: seq<NodeEntry>, id: string, data: string, third: bool): Step {
    Put(id, 0, 3, data, Ids(ns), [true, true, third], true)
  }

  function Puts(ns: seq<NodeEntry>, id: string, n: nat): seq<Step> {
    if n == 0 then [] else Puts(ns, id, n - 1) + [PutStep(ns, id, "x", true)]
  }

  lemma {:induction false} CandidatesAll(ns: seq<NodeEntry>)
    ensures Candidates(ns, {}) == ns
  {
    if ns != [] {
      CandidatesAll(ns[..|ns| - 1]);
    }
  }

  lemma {:induction false} AddressAt(ns: seq<NodeEntry>, i: nat)
    requires DistinctIds(ns) && i < |ns|
    ensures AddressOf(ns[i].nodeId, ns) == Some(ns[i].address)
  {
    if i > 0 {
      AddressAt(ns[1..], i - 1);
    }
  }

  lemma Placed(ns: seq<NodeEntry>)
    requires Trio(ns)
    ensures Selection(3, ns, {}, Ids(ns))
  {
    CandidatesAll(ns);
  }

  ghost function AddressesOf(ns: seq<NodeEntry>): seq<string> {
    Addresses(EncodeTargets(Ids(ns), ns), ns)
  }

  lemma TrioAddresses(ns: seq<NodeEntry>, i: nat)
    requires Trio(ns) && i < 3
    ensures AddressesOf(ns)[i] == ns[i].address
  {
    assert NameOk(ns[i].nodeId);
    AddressAt(ns, i);
    EncodedTarget(ns[i].nodeId, ns);
  }

  lemma TookOfThree(addrs: seq<string>, third: bool)
    requires |addrs| == 3
    ensures Took(addrs, [true, true, third]) == if third then addrs else addrs[..2]
  {
    var w := [true, true, third];
    assert addrs[..2][..1] == addrs[..1] && w[..2][..1] == w[..1];
    assert Took(addrs[..1], w[..1]) == addrs[..1];
    assert Took(addrs[..2], w[..2]) == addrs[..2];
  }

  /** The state after n such puts: version n, held by the last node. */
  ghost predicate HasPuts(s: State, ns: seq<NodeEntry>, id: string, n: nat)
    requires |ns| == 3
  {
    && s.alive == ns && s.table.Keys == (if n > 0 then {id} else {})
    && (n > 0 ==> Versioned(s, id, n) && (id, n) in At(s.stores, ns[2].address))
  }

  ghost predicate Versioned(s: State, id: string, n: nat) {
    id in s.table && s.table[id].version == n && s.table[id].configState.Stable?
  }

  lemma PutIsEnabled(s: State, ns: seq<NodeEntry>, id: string, n: nat, data: string, third: bool)
    requires Trio(ns) && ValidId(id) && HasPuts(s, ns, id, n) && n + 1 <= MAX_VERSION
    ensures Enabled(s, PutStep(ns, id, data, third)) && IsOkPut(s, PutStep(ns, id, data, third), id)
    ensures Acked(s, PutStep(ns, id, data, third)) == if third then AddressesOf(ns) else AddressesOf(ns)[..2]
  {
    Placed(ns);
    TookOfThree(AddressesOf(ns), third);
  }

  lemma OnePut(s: State, ns: seq<NodeEntry>, id: string, n: nat, data: string, third: bool)
    requires Trio(ns) && ValidId(id) && HasPuts(s, ns, id, n) && n + 1 <= MAX_VERSION
    ensures Enabled(s, PutStep(ns, id, data, third))
    ensures var t := After(s, PutStep(ns, id, data, third));
      && t.alive == ns && t.table.Keys == {id} && Versioned(t, id, n + 1) && t.table[id].replicaSet == EncodeTargets(Ids(ns), ns)
      && t.stores == WriteAll(s.stores, if third then AddressesOf(ns) else AddressesOf(ns)[..2], id, n + 1, data)
  {
    PutIsEnabled(s, ns, id, n, data, third);
    OkPutGives(s, PutStep(ns, id, data, third));
    assert NextVersion(s.table, id) == n + 1;
  }

  lemma OkPutGives(s: State, p: Step)
    requires Enabled(s, p) && p.Put? && PutSucceeds(s, p)
    ensures var t, v := After(s, p), NextVersion(s.table, p.id);
      && t.alive == s.alive && t.table.Keys == s.table.Keys + {p.id}
      && t.table[p.id].version == v && t.table[p.id].configState.Stable?
      && t.table[p.id].replicaSet == EncodeTargets(p.chosen, s.alive)
      && t.stores == WriteAll(s.stores, Acked(s, p), p.id, v, p.data)
  {}

  lemma PutOnAll(s: State, ns: seq<NodeEntry>, id: string, n: nat)
    requires Trio(ns) && ValidId(id) && HasPuts(s, ns, id, n) && n + 1 <= MAX_VERSION
    ensures Enabled(s, PutStep(ns, id, "x", true)) && HasPuts(After(s, PutStep(ns, id, "x", true)), ns, id, n + 1)
  {
    OnePut(s, ns, id, n, "x", true);
    TrioAddresses(ns, 2);
    WriteAllReaches(s.stores, AddressesOf(ns), id, n + 1, "x");
    assert AddressesOf(ns)[2] in AddressesOf(ns);
  }

  lemma {:induction false} ManyPuts(ns: seq<NodeEntry>, id: string, n: nat)
    requires Trio(ns) && ValidId(id) && n <= MAX_VERSION
    ensures Run(Initial(ns), Puts(ns, id, n)) && HasPuts(EndOf(Initial(ns), Puts(ns, id, n)), ns, id, n)
  {
    if n > 0 {
      ManyPuts(ns, id, n - 1);
      OnePutMore(ns, Puts(ns, id, n - 1), id, n - 1);
    }
  }

  lemma OnePutMore(ns: seq<NodeEntry>, steps: seq<Step>, id: string, n: nat)
    requires Trio(ns) && ValidId(id) && n + 1 <= MAX_VERSION
    requires Run(Initial(ns), steps) && HasPuts(EndOf(Initial(ns), steps), ns, id, n)
    ensures var more := steps + [PutStep(ns, id, "x", true)];
      Run(Initial(ns), more) && HasPuts(EndOf(Initial(ns), more), ns, id, n + 1)
  {
    PutOnAll(EndOf(Initial(ns), steps), ns, id, n);
    RunSnoc(Initial(ns), steps, PutStep(ns, id, "x", true));
  }

  lemma ThirdUntouched(s: State, ns: seq<NodeEntry>, id: string, n: nat)
    requires Trio(ns) && HasPuts(s, ns, id, n) && 0 < n && DataInv(s)
    ensures IsLatest(At(WriteAll(s.stores, AddressesOf(ns)[..2], id, n + 1, "y"), ns[2].address), id, n)
  {
    TrioAddresses(ns, 0);
    TrioAddresses(ns, 1);
    WriteAllSpares(s.stores, AddressesOf(ns)[..2], id, n + 1, "y", ns[2].address);
    forall w | (id, w) in At(s.stores, ns[2].address) ensures w <= n {
      assert (id, w) in s.stores[ns[2].address];
    }
  }

  ghost predicate StaleAt(s: State, id: string, min: nat, v: nat, data: string) {
    && id in s.table && v < s.table[id].version
    && exists i :: 0 <= i < |s.table[id].replicaSet| && ReplicaServes(s, id, s.table[id].replicaSet[i], min, v, data)
  }

  ghost predicate ReplicaServes(s: State, id: string, entry: string, min: nat, v: nat, data: string) {
    Serves(s.stores, ResolveAddress(entry, s.alive), id, min, v, data)
  }

  lemma ThirdIsStale(t: State, ns: seq<NodeEntry>, id: string, min: nat, n: nat)
    requires Trio(ns) && min <= n && t.alive == ns && Versioned(t, id, n + 1)
    requires t.table[id].replicaSet == EncodeTargets(Ids(ns), ns) && IsLatest(At(t.stores, ns[2].address), id, n)
    ensures StaleAt(t, id, min, n, At(t.stores, ns[2].address)[(id, n)])
  {
    TrioAddresses(ns, 2);
    assert ReplicaServes(t, id, t.table[id].replicaSet[2], min, n, At(t.stores, ns[2].address)[(id, n)]);
  }

  lemma LastMisses(s: State, ns: seq<NodeEntry>, id: string, min: nat, n: nat)
    requires Trio(ns) && ValidId(id) && HasPuts(s, ns, id, n) && 0 < n && n + 1 <= MAX_VERSION && DataInv(s) && min <= n
    ensures Enabled(s, PutStep(ns, id, "y", false))
    ensures StaleState(After(s, PutStep(ns, id, "y", false)), id, min, n + 1)
  {
    OnePut(s, ns, id, n, "y", false);
    ThirdUntouched(s, ns, id, n);
    ThirdIsStale(After(s, PutStep(ns, id, "y", false)), ns, id, min, n);
  }

  ghost predicate StaleState(s: State, id: string, min: nat, version: nat) {
    Versioned(s, id, version) && exists v, data :: StaleAt(s, id, min, v, data)
  }

  ghost predicate StaleRun(ns: seq<NodeEntry>, steps: seq<Step>, id: string, min: nat, version: nat) {
    Run(Initial(ns), steps) && StaleState(EndOf(Initial(ns), steps), id, min, version)
  }

  /** For every floor strictly between zero and the current version there is a run after
      which one of the chunk's replicas, at its own address, answers a get with that floor by
      an older version than the last acknowledged put. */
  lemma StaleReadPossible(ns: seq<NodeEntry>, id: string, min: nat, version: nat)
    requires Trio(ns) && ValidId(id) && 0 < min < version <= MAX_VERSION
    ensures exists steps :: StaleRun(ns, steps, id, min, version)
  {
    var n := version - 1;
    ManyPuts(ns, id, n);
    StaleExtension(ns, Puts(ns, id, n), id, min, n);
  }

  lemma StaleExtension(ns: seq<NodeEntry>, steps: seq<Step>, id: string, min: nat, n: nat)
    requires Trio(ns) && ValidId(id) && 0 < n && n + 1 <= MAX_VERSION && min <= n
    requires Run(Initial(ns), steps) && HasPuts(EndOf(Initial(ns), steps), ns, id, n)
    ensures StaleRun(ns, steps + [PutStep(ns, id, "y", false)], id, min, n + 1)
  {
    RunKeepsData(Initial(ns), steps);
    LastMisses(EndOf(Initial(ns), steps), ns, id, min, n);
    RunSnoc(Initial(ns), steps, PutStep(ns, id, "y", false));
  }

  // ---------------------------------------------------------------- lost rollbacks

  /** A failed put whose rollback deletes reach only some of the written replicas. */
  function AfterLostRollback(s: State, p: Step, deleted: seq<string>): State
    requires p.Put? && |p.chosen| == |p.wrote|
  {
    var stores := WriteAll(s.stores, Acked(s, p), p.id, NextVersion(s.table, p.id), p.data);
    AfterPut(s, p).(stores := DropAll(stores, deleted, p.id))
  }

  lemma {:induction false} DropAllSpares(stores: Stores, addrs: seq<string>, id: string, addr: string)
    requires addr !in addrs
    ensures At(DropAll(stores, addrs, id), addr) == At(stores, addr)
  {
    if addrs != [] {
      DropAllSpares(stores, addrs[..|addrs| - 1], id, addr);
    }
  }

  lemma {:induction false} WriteAllOnly(stores: Stores, addrs: seq<string>, id: string, v: nat, data: string, addr: string)
    ensures forall k <- At(WriteAll(stores, addrs, id, v, data), addr) :: k == (id, v) || k in At(stores, addr)
  {
    if addrs != [] {
      WriteAllOnly(stores, addrs[..|addrs| - 1], id, v, data, addr);
    }
  }

  /** When a put of a known chunk fails and the delete on one of the written replicas is lost,
      a get that asks that replica next is served bytes that no put ever acknowledged. */
  lemma LostRollbackIsRead(s: State, p: Step, deleted: seq<string>, addr: string)
    requires DataInv(s) && p.Put? && PutEnabled(s, p) && !PutSucceeds(s, p) && p.id in s.table
    requires addr in Acked(s, p) && addr !in deleted
    ensures var t, v := AfterLostRollback(s, p, deleted), NextVersion(s.table, p.id);
      && (p.id, v) !in t.puts && t.table == s.table
      && Serves(t.stores, addr, p.id, Target(0, t.table[p.id].version), v, p.data)
  {
    var v := NextVersion(s.table, p.id);
    var stores := WriteAll(s.stores, Acked(s, p), p.id, v, p.data);
    DropAllSpares(stores, deleted, p.id, addr);
    WriteAllReaches(s.stores, Acked(s, p), p.id, v, p.data);
    WriteAllOnly(s.stores, Acked(s, p), p.id, v, p.data, addr);
    forall w | (p.id, w) in At(stores, addr) ensures w <= v {
      assert (p.id, w) != (p.id, v) ==> (p.id, w) in s.stores[addr];
    }
  }
}
