/** A storage node's repair round (src/storage/replica_repair.cpp): it fetches what it is
    assigned and lacks from its peers, and removes what it is not assigned. */
module Repair {
  import opened Text
  import opened Coordinator
  import opened Planner
  import opened ChunkStore
  import opened Cluster
  import opened Leader

  /** The replica entry as GetChunkInfo reports it. */
  function Reported(entry: string, s: State): string {
    if |NodeIdOf(entry)| < |entry| then entry else EncodeTarget(entry, s.alive)
  }

  function PeerAddress(entry: string): string {
    var id := NodeIdOf(entry);
    if |id| < |entry| then entry[|id| + 1..] else ""
  }

  predicate Usable(entry: string, self: string, addr: string) {
    && PeerAddress(entry) != "" && NodeIdOf(entry) != ""
    && NodeIdOf(entry) != self && PeerAddress(entry) != addr
  }

  /** GetChunkInfo keeps the node of an entry and completes its address. */
  lemma ReportedEntry(entry: string, s: State)
    ensures NodeIdOf(Reported(entry, s)) == NodeIdOf(entry)
    ensures PeerAddress(Reported(entry, s)) == ResolveAddress(entry, s.alive)
  {
    NodeIdFree(entry);
    if |NodeIdOf(entry)| == |entry| {
      assert NodeIdOf(entry) == entry;
      EncodedTarget(entry, s.alive);
      if AddressOf(entry, s.alive).Some? {
        assert Reported(entry, s)[|entry| + 1..] == AddressOf(entry, s.alive).value;
      }
    }
  }

  /** Entry i of the chunk's replica set names another node at another address, and that node has
      the chunk's current version. */
  ghost predicate CanHelp(s: State, self: string, addr: string, id: string, i: nat)
    requires id in s.table && i < |s.table[id].replicaSet|
  {
    var entry := s.table[id].replicaSet[i];
    var peer := ResolveAddress(entry, s.alive);
    && NodeIdOf(entry) != "" && NodeIdOf(entry) != self && peer != "" && peer != addr
    && UpToDate(s.stores, peer, id, s.table[id].version)
  }

  /** None of the first n entries can help. */
  ghost predicate NoPeerServes(s: State, self: string, addr: string, id: string, up: nat -> bool, n: nat)
    requires id in s.table && n <= |s.table[id].replicaSet|
  {
    forall i :: 0 <= i < n && up(i) ==> !CanHelp(s, self, addr, id, i)
  }

  ghost predicate Settled(s: State, self: string, addr: string, id: string, up: nat -> bool) {
    id in s.table ==>
      UpToDate(s.stores, addr, id, s.table[id].version) || NoPeerServes(s, self, addr, id, up, |s.table[id].replicaSet|)
  }

  /** Only the node's own store changed, and for ids satisfying `kept` it lost nothing. */
  ghost predicate OwnStoreOnly(before: State, after: State, addr: string, kept: set<string>) {
    && after == before.(stores := after.stores, repairs := after.repairs)
    && (forall a :: a != addr ==> At(after.stores, a) == At(before.stores, a))
    && forall k <- At(before.stores, addr) :: k.0 in kept ==> k in At(after.stores, addr)
  }

  lemma OwnStoreTransitive(a: State, b: State, c: State, addr: string, kept: set<string>)
    requires OwnStoreOnly(a, b, addr, kept) && OwnStoreOnly(b, c, addr, kept)
    ensures OwnStoreOnly(a, c, addr, kept)
  {}

  lemma SettledStays(before: State, after: State, self: string, addr: string, id: string, up: nat -> bool, kept: set<string>)
    requires OwnStoreOnly(before, after, addr, kept) && id in kept && Settled(before, self, addr, id, up)
    ensures Settled(after, self, addr, id, up)
  {
    if id in before.table && UpToDate(before.stores, addr, id, before.table[id].version) {
      var v :| before.table[id].version <= v && (id, v) in At(before.stores, addr);
      assert (id, v) in At(after.stores, addr);
    } else if id in before.table {
      forall i | 0 <= i < |after.table[id].replicaSet| && up(i) ensures !CanHelp(after, self, addr, id, i) {
        assert !CanHelp(before, self, addr, id, i);
        var peer := ResolveAddress(after.table[id].replicaSet[i], after.alive);
        assert peer != addr ==> At(after.stores, peer) == At(before.stores, peer);
      }
    }
  }

  method FetchAndWrite(c: Service, peer: string, addr: string, id: string, v: nat, data: string)
    requires c.Valid() && Serves(c.s.stores, peer, id, 0, v, data)
    modifies c
    ensures c.Valid() && old(c.run) <= c.run
    ensures c.s == old(c.s).(stores := Written(old(c.s).stores, addr, id, v, data), repairs := c.s.repairs)
  {
    c.Take(RepairFetch(peer, id, v, data));
    c.s := c.s.(repairs := c.s.repairs + {Copy.Copy(id, v, data)});
    c.Take(RepairWrite(addr, Copy.Copy(id, v, data)));
    c.s := c.s.(stores := Written(c.s.stores, addr, id, v, data));
  }

  /** Brings one assigned chunk up to date from the first peer that serves its version. */
  method RepairOne(c: Service, self: string, addr: string, id: string, up: nat -> bool, ghost kept: set<string>)
    requires c.Valid()
    modifies c
    ensures c.Valid() && old(c.run) <= c.run && OwnStoreOnly(old(c.s), c.s, addr, kept)
    ensures Settled(c.s, self, addr, id, up)
  {
    if id !in c.s.table {
      return;
    }
    var e := c.s.table[id];
    var local := ReadLatest(At(c.s.stores, addr), id, e.version);
    if local.Some? {
      return;
    }
    var found := FindPeer(c, self, addr, id, up);
    if found.Some? {
      FetchAndWrite(c, found.value.0, addr, id, found.value.1, found.value.2);
      assert (id, found.value.1) in At(c.s.stores, addr);
    }
  }

  /** The address of the first reached entry that can help, and what it serves. */
  method FindPeer(c: Service, self: string, addr: string, id: string, up: nat -> bool)
    returns (found: Option<(string, nat, string)>)
    requires id in c.s.table
    ensures found.Some? ==> c.s.table[id].version <= found.value.1
    ensures found.Some? ==> Serves(c.s.stores, found.value.0, id, 0, found.value.1, found.value.2)
    ensures found.Some? ==> exists i :: 0 <= i < |c.s.table[id].replicaSet| && FirstHelp(c.s, self, addr, id, up, i, found.value.0)
    ensures found.None? ==> NoPeerServes(c.s, self, addr, id, up, |c.s.table[id].replicaSet|)
  {
    var e := c.s.table[id];
    for i := 0 to |e.replicaSet|
      invariant NoPeerServes(c.s, self, addr, id, up, i)
    {
      var peer := Reported(e.replicaSet[i], c.s);
      ReportedEntry(e.replicaSet[i], c.s);
      if Usable(peer, self, addr) && up(i) {
        var r := ReadLatest(At(c.s.stores, PeerAddress(peer)), id, e.version);
        if r.Some? {
          assert FirstHelp(c.s, self, addr, id, up, i, PeerAddress(peer));
          return Some((PeerAddress(peer), r.value.0, r.value.1));
        }
      }
    }
    return None;
  }

  /** Entry i is the first reached one that can help, and it is at this address. */
  ghost predicate FirstHelp(s: State, self: string, addr: string, id: string, up: nat -> bool, i: nat, peer: string)
    requires id in s.table && i < |s.table[id].replicaSet|
  {
    && up(i) && CanHelp(s, self, addr, id, i) && peer == ResolveAddress(s.table[id].replicaSet[i], s.alive)
    && NoPeerServes(s, self, addr, id, up, i)
  }

  method DropOne(c: Service, addr: string, id: string, ghost kept: set<string>)
    requires c.Valid() && id !in kept && exists v :: (id, v) in At(c.s.stores, addr)
    modifies c
    ensures c.Valid() && old(c.run) <= c.run && OwnStoreOnly(old(c.s), c.s, addr, kept)
    ensures At(c.s.stores, addr) == Without(At(old(c.s).stores, addr), id)
  {
    c.ValidInv();
    StoredIsClear(c.s, addr, id);
    c.Take(Drop(addr, id));
    c.s := c.s.(stores := Dropped(c.s.stores, addr, id));
  }

  /** A round with a non-empty assignment: afterwards the node holds only assigned chunks, and
      each of them whose metadata could be had is at the table's version unless no peer could
      serve it. No other node changes. */
  method RunOnce(c: Service, self: string, addr: string, duties: set<string>, info: string -> bool, up: string -> nat -> bool)
    requires c.Valid()
    modifies c
    ensures c.Valid() && old(c.run) <= c.run && OwnStoreOnly(old(c.s), c.s, addr, duties)
    ensures duties == {} ==> c.s == old(c.s)
    ensures duties != {} ==> forall k <- At(c.s.stores, addr) :: k.0 in duties
    ensures forall id <- duties :: info(id) ==> Settled(c.s, self, addr, id, up(id))
    ensures forall id, i: nat ::
      (&& id in duties && info(id) && id in c.s.table && i < |c.s.table[id].replicaSet| && up(id)(i)
       && NodeIdOf(c.s.table[id].replicaSet[i]) != "" && NodeIdOf(c.s.table[id].replicaSet[i]) != self
       && ResolveAddress(c.s.table[id].replicaSet[i], c.s.alive) != ""
       && ResolveAddress(c.s.table[id].replicaSet[i], c.s.alive) != addr
       && UpToDate(c.s.stores, ResolveAddress(c.s.table[id].replicaSet[i], c.s.alive), id, c.s.table[id].version))
      ==> UpToDate(c.s.stores, addr, id, c.s.table[id].version)
  {
    if duties == {} {
      return;
    }
    var left := duties;
    while left != {}
      invariant left <= duties
      invariant c.Valid() && old(c.run) <= c.run && OwnStoreOnly(old(c.s), c.s, addr, duties)
      invariant forall id <- duties - left :: info(id) ==> Settled(c.s, self, addr, id, up(id))
    {
      var id :| id in left;
      left := left - {id};
      if !info(id) {
        continue;
      }
      ghost var before := c.s;
      RepairOne(c, self, addr, id, up(id), duties);
      OwnStoreTransitive(old(c.s), before, c.s, addr, duties);
      forall done | done in duties - left && info(done) ensures Settled(c.s, self, addr, done, up(done)) {
        if done != id {
          SettledStays(before, c.s, self, addr, done, up(done), duties);
        }
      }
    }
    DropUnassigned(c, self, addr, duties, info, up);
  }

  /** A stored chunk can be dropped: its id stands apart from all others. */
  lemma StoredIsClear(s: State, addr: string, id: string)
    requires DataInv(s) && exists v :: (id, v) in At(s.stores, addr)
    ensures Clear(At(s.stores, addr), id)
  {
    var v :| (id, v) in At(s.stores, addr);
    assert (id, v) in s.stores[addr];
    forall p | p in At(s.stores, addr) ensures !Nested(p.0, id) {
      assert p in s.stores[addr] && p.0 in s.table && id in s.table;
      assert StandsApart(s.table, id);
    }
  }

  lemma OthersStay(before: Stores, after: Stores, addr: string, dropped: string, ids: set<string>)
    requires At(after, addr) == Without(At(before, addr), dropped) && dropped !in ids
    requires forall id <- ids :: exists v :: (id, v) in At(before, addr)
    ensures forall id <- ids :: exists v :: (id, v) in At(after, addr)
  {
    forall id | id in ids ensures exists v :: (id, v) in At(after, addr) {
      var v :| (id, v) in At(before, addr);
      assert (id, v) in At(after, addr);
    }
  }

  method DropUnassigned(c: Service, ghost self: string, addr: string, duties: set<string>, ghost info: string -> bool,
                        ghost up: string -> nat -> bool)
    requires c.Valid() && forall id <- duties :: info(id) ==> Settled(c.s, self, addr, id, up(id))
    modifies c
    ensures c.Valid() && old(c.run) <= c.run && OwnStoreOnly(old(c.s), c.s, addr, duties)
    ensures forall k <- At(c.s.stores, addr) :: k.0 in duties
    ensures forall id <- duties :: info(id) ==> Settled(c.s, self, addr, id, up(id))
  {
    var local := set k <- At(c.s.stores, addr) :: k.0;
    while local != {}
      invariant c.Valid() && old(c.run) <= c.run && OwnStoreOnly(old(c.s), c.s, addr, duties)
      invariant forall k <- At(c.s.stores, addr) :: k.0 in duties || k.0 in local
      invariant forall id <- local :: id !in duties ==> exists v :: (id, v) in At(c.s.stores, addr)
      invariant forall id <- duties :: info(id) ==> Settled(c.s, self, addr, id, up(id))
    {
      var id :| id in local;
      local := local - {id};
      if id !in duties {
        ghost var before := c.s;
        DropOne(c, addr, id, duties);
        OwnStoreTransitive(old(c.s), before, c.s, addr, duties);
        forall done | done in duties && info(done) ensures Settled(c.s, self, addr, done, up(done)) {
          SettledStays(before, c.s, self, addr, done, up(done), duties);
        }
        OthersStay(before.stores, c.s.stores, addr, id, local - duties);
      }
    }
  }
}
