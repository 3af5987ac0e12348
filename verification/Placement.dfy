/** Replica placement: greedy choice by a score whose diversity term changes with every
    choice (src/meta/placement.cpp). */
module Placement {
  import opened Sets
  import opened Coordinator

  datatype Config = Config(wLoad: real, wCap: real, wRel: real, wDiv: real)

  function Score(cfg: Config, n: NodeEntry, chosen: set<string>): real {
    var load := (1.0 - n.loadFraction) * cfg.wLoad;
    var cap := if n.totalBytes > 0 then (n.freeBytes as real / n.totalBytes as real) * cfg.wCap else 0.0;
    var rel := (1.0 - n.failureRate) * cfg.wRel;
    var div := (if n.nodeId in chosen then 0.0 else 1.0) * cfg.wDiv;
    load + cap + rel + div
  }

  function Ids(nodes: seq<NodeEntry>): (r: seq<string>)
    ensures |r| == |nodes| && forall i :: 0 <= i < |r| ==> r[i] == nodes[i].nodeId
  {
    seq(|nodes|, i requires 0 <= i < |nodes| => nodes[i].nodeId)
  }

  ghost predicate DistinctIds(nodes: seq<NodeEntry>) {
    forall i, j :: 0 <= i < j < |nodes| ==> nodes[i].nodeId != nodes[j].nodeId
  }

  function Candidates(alive: seq<NodeEntry>, exclude: set<string>): (r: seq<NodeEntry>)
    ensures forall n :: n in r <==> n in alive && n.nodeId !in exclude
  {
    if alive == [] then []
    else
      var init, n := Candidates(alive[..|alive| - 1], exclude), alive[|alive| - 1];
      if n.nodeId in exclude then init else init + [n]
  }

  lemma {:induction false} CandidatesDistinct(alive: seq<NodeEntry>, exclude: set<string>)
    requires DistinctIds(alive)
    ensures DistinctIds(Candidates(alive, exclude))
  {
    if alive != [] {
      var init, n := alive[..|alive| - 1], alive[|alive| - 1];
      CandidatesDistinct(init, exclude);
      var r := Candidates(init, exclude);
      forall i | 0 <= i < |r| ensures r[i].nodeId != n.nodeId {
        assert r[i] in r;
        var k :| 0 <= k < |init| && init[k] == r[i];
        assert alive[k] == r[i] && alive[|init|] == n;
      }
    }
  }

  /** Candidates stay in the order of the alive nodes. */
  lemma {:induction false} CandidatesKeepOrder(alive: seq<NodeEntry>, exclude: set<string>, i: nat, j: nat)
    requires i < j < |alive| && alive[i].nodeId !in exclude && alive[j].nodeId !in exclude
    ensures TakenBefore(Candidates(alive, exclude), alive[i], alive[j])
  {
    var n := |alive| - 1;
    var init, r := alive[..n], Candidates(alive[..n], exclude);
    if j < n {
      CandidatesKeepOrder(init, exclude, i, j);
      TakenBeforeSnoc(r, alive[i], alive[j], alive[n]);
    } else {
      assert init[i] in init;
      LastTaken(r, alive[i], alive[j]);
    }
  }

  lemma TakenBeforeSnoc(t: seq<NodeEntry>, x: NodeEntry, y: NodeEntry, z: NodeEntry)
    requires TakenBefore(t, x, y)
    ensures TakenBefore(t + [z], x, y)
  {
    var p, q :| 0 <= p < q < |t| && t[p] == x && t[q] == y;
    assert (t + [z])[p] == x && (t + [z])[q] == y;
  }

  lemma LastTaken(t: seq<NodeEntry>, x: NodeEntry, y: NodeEntry)
    requires x in t
    ensures TakenBefore(t + [y], x, y)
  {
    var p :| 0 <= p < |t| && t[p] == x;
    assert (t + [y])[p] == x && (t + [y])[|t|] == y;
  }

  // ---------------------------------------------------------------- ranking by a fixed score

  ghost predicate IsFirstBest(f: NodeEntry -> real, s: seq<NodeEntry>, b: nat) {
    && b < |s| && (forall i :: 0 <= i < |s| ==> f(s[i]) <= f(s[b]))
    && forall i :: 0 <= i < b ==> f(s[i]) < f(s[b])
  }

  lemma {:induction false} FirstBestExists(f: NodeEntry -> real, s: seq<NodeEntry>)
    requires s != []
    ensures exists b: nat :: IsFirstBest(f, s, b)
  {
    var n := |s| - 1;
    if n == 0 {
      assert IsFirstBest(f, s, 0);
    } else {
      FirstBestExists(f, s[..n]);
      var b: nat :| IsFirstBest(f, s[..n], b);
      assert forall i :: 0 <= i < n ==> s[..n][i] == s[i];
      assert IsFirstBest(f, s, if f(s[b]) < f(s[n]) then n else b);
    }
  }

  /** The first position with the greatest score. */
  ghost function FirstBest(f: NodeEntry -> real, s: seq<NodeEntry>): (b: nat)
    requires s != []
    ensures IsFirstBest(f, s, b)
  {
    FirstBestExists(f, s);
    var b: nat :| IsFirstBest(f, s, b);
    b
  }

  function Removed(s: seq<NodeEntry>, b: nat): seq<NodeEntry>
    requires b < |s|
  {
    s[..b] + s[b + 1..]
  }

  /** The n best nodes by a fixed score, best first, earlier positions winning ties. */
  ghost function Top(f: NodeEntry -> real, s: seq<NodeEntry>, n: int): seq<NodeEntry>
    decreases |s|
  {
    if n <= 0 || s == [] then []
    else
      var b := FirstBest(f, s);
      [s[b]] + Top(f, Removed(s, b), n - 1)
  }

  function Least(a: int, b: nat): nat {
    if a <= 0 then 0 else if a < b then a else b
  }

  ghost predicate Splits(s: seq<NodeEntry>, x: NodeEntry, rest: seq<NodeEntry>) {
    forall y :: y in s <==> y == x || y in rest
  }

  lemma RemovedMembers(s: seq<NodeEntry>, b: nat)
    requires b < |s|
    ensures Splits(s, s[b], Removed(s, b))
  {
    var rest := Removed(s, b);
    forall y | y in s ensures y == s[b] || y in rest {
      var k :| 0 <= k < |s| && s[k] == y;
      if k != b {
        assert rest[if k < b then k else k - 1] == y;
      }
    }
  }

  lemma {:induction false} TopTakes(f: NodeEntry -> real, s: seq<NodeEntry>, n: int)
    ensures |Top(f, s, n)| == Least(n, |s|) && Within(Top(f, s, n), s)
    decreases |s|
  {
    if n > 0 && s != [] {
      var b := FirstBest(f, s);
      TopTakes(f, Removed(s, b), n - 1);
      RemovedMembers(s, b);
    }
  }

  ghost predicate Ranked(f: NodeEntry -> real, t: seq<NodeEntry>) {
    forall i, j :: 0 <= i < j < |t| ==> f(t[i]) >= f(t[j])
  }

  ghost predicate Beats(f: NodeEntry -> real, t: seq<NodeEntry>, s: seq<NodeEntry>) {
    forall x, y :: x in t && y in s && y !in t ==> f(x) >= f(y)
  }

  ghost predicate Within(t: seq<NodeEntry>, s: seq<NodeEntry>) {
    forall x <- t :: x in s
  }

  ghost predicate Ranking(f: NodeEntry -> real, t: seq<NodeEntry>, s: seq<NodeEntry>) {
    Ranked(f, t) && Beats(f, t, s) && Within(t, s)
  }

  /** The ranking is sorted, and no node left out beats one taken. */
  lemma {:induction false} TopRanks(f: NodeEntry -> real, s: seq<NodeEntry>, n: int)
    ensures Ranking(f, Top(f, s, n), s)
    decreases |s|
  {
    if n > 0 && s != [] {
      TopRanks(f, WithoutBest(f, s), n - 1);
      TopStep(f, s, n);
    }
  }

  ghost function WithoutBest(f: NodeEntry -> real, s: seq<NodeEntry>): (r: seq<NodeEntry>)
    requires s != []
    ensures |r| < |s|
  {
    Removed(s, FirstBest(f, s))
  }

  lemma TopStep(f: NodeEntry -> real, s: seq<NodeEntry>, n: int)
    requires n > 0 && s != [] && Ranking(f, Top(f, WithoutBest(f, s), n - 1), WithoutBest(f, s))
    ensures Ranking(f, Top(f, s, n), s)
  {
    BestFirst(f, s, FirstBest(f, s), Top(f, WithoutBest(f, s), n - 1));
  }

  /** A best node in front of a ranking of the others ranks them all. */
  lemma BestFirst(f: NodeEntry -> real, s: seq<NodeEntry>, b: nat, t: seq<NodeEntry>)
    requires IsFirstBest(f, s, b) && Ranking(f, t, Removed(s, b))
    ensures Ranking(f, [s[b]] + t, s)
  {
    RemovedMembers(s, b);
    assert forall y <- s :: f(y) <= f(s[b]);
    RankedCons(f, s[b], t, s);
    forall a, y | a in [s[b]] + t && y in s && y !in [s[b]] + t ensures f(a) >= f(y) {
      assert y in Removed(s, b) && y !in t;
    }
  }

  lemma RankedCons(f: NodeEntry -> real, x: NodeEntry, t: seq<NodeEntry>, s: seq<NodeEntry>)
    requires Ranked(f, t) && (forall y <- s :: f(y) <= f(x)) && forall y <- t :: y in s
    ensures Ranked(f, [x] + t)
  {
    forall i, j | 0 <= i < j < |[x] + t| ensures f(([x] + t)[i]) >= f(([x] + t)[j]) {
      assert t[j - 1] in t;
    }
  }

  lemma RemovedDistinct(s: seq<NodeEntry>, b: nat)
    requires b < |s| && DistinctIds(s)
    ensures DistinctIds(Removed(s, b))
    ensures forall x <- Removed(s, b) :: x in s && x.nodeId != s[b].nodeId
  {
    var rest := Removed(s, b);
    forall k | 0 <= k < |rest| ensures rest[k].nodeId != s[b].nodeId && rest[k] in s {
      assert rest[k] == s[if k < b then k else k + 1];
    }
    forall j, k | 0 <= j < k < |rest| ensures rest[j].nodeId != rest[k].nodeId {
      assert rest[j] == s[if j < b then j else j + 1];
      assert rest[k] == s[if k < b then k else k + 1];
    }
  }

  lemma {:induction false} TopDistinct(f: NodeEntry -> real, s: seq<NodeEntry>, n: int)
    requires DistinctIds(s)
    ensures DistinctIds(Top(f, s, n))
    decreases |s|
  {
    if n > 0 && s != [] {
      var b := FirstBest(f, s);
      var rest := Removed(s, b);
      RemovedDistinct(s, b);
      TopDistinct(f, rest, n - 1);
      TopTakes(f, rest, n - 1);
      DistinctCons(s[b], Top(f, rest, n - 1));
    }
  }

  lemma DistinctCons(x: NodeEntry, t: seq<NodeEntry>)
    requires DistinctIds(t) && forall y <- t :: y.nodeId != x.nodeId
    ensures DistinctIds([x] + t)
  {
    var all := [x] + t;
    forall i, j | 0 <= i < j < |all| ensures all[i].nodeId != all[j].nodeId {
      assert all[j] == t[j - 1] && t[j - 1] in t;
    }
  }

  lemma TopUnfolds(f: NodeEntry -> real, picked: seq<NodeEntry>, s: seq<NodeEntry>, n: int)
    requires n > 0 && s != []
    ensures picked + Top(f, s, n) == (picked + [s[FirstBest(f, s)]]) + Top(f, WithoutBest(f, s), n - 1)
  {}

  /** Of two nodes the earlier is taken first when it scores no less. */
  lemma {:induction false} TopStable(f: NodeEntry -> real, s: seq<NodeEntry>, n: int, i: nat, j: nat)
    requires DistinctIds(s) && i < j < |s| && f(s[i]) >= f(s[j]) && s[j] in Top(f, s, n)
    ensures TakenBefore(Top(f, s, n), s[i], s[j])
    decreases |s|
  {
    var b := FirstBest(f, s);
    var rest, t := Removed(s, b), Top(f, Removed(s, b), n - 1);
    assert Top(f, s, n) == [s[b]] + t;
    assert b != j && s[j] in t;
    if b == i {
      FirstTaken(s[b], t, s[j]);
    } else {
      var i', j' := if i < b then i else i - 1, if j < b then j else j - 1;
      RemovedDistinct(s, b);
      assert rest[i'] == s[i] && rest[j'] == s[j];
      TopStable(f, rest, n - 1, i', j');
      TakenBeforeCons(s[b], t, s[i], s[j]);
    }
  }

  lemma FirstTaken(x: NodeEntry, t: seq<NodeEntry>, y: NodeEntry)
    requires y in t
    ensures TakenBefore([x] + t, x, y)
  {
    var q :| 0 <= q < |t| && t[q] == y;
    assert ([x] + t)[0] == x && ([x] + t)[q + 1] == y;
  }

  ghost predicate TakenBefore(t: seq<NodeEntry>, x: NodeEntry, y: NodeEntry) {
    exists p, q :: 0 <= p < q < |t| && t[p] == x && t[q] == y
  }

  lemma TakenBeforeCons(z: NodeEntry, t: seq<NodeEntry>, x: NodeEntry, y: NodeEntry)
    requires TakenBefore(t, x, y)
    ensures TakenBefore([z] + t, x, y)
  {
    var p, q :| 0 <= p < q < |t| && t[p] == x && t[q] == y;
    assert ([z] + t)[p + 1] == x && ([z] + t)[q + 1] == y;
  }

  lemma HigherIsEarlier(f: NodeEntry -> real, t: seq<NodeEntry>, p: nat, q: nat)
    requires Ranked(f, t) && p < |t| && q < |t| && f(t[p]) > f(t[q])
    ensures p < q
  {}

  /** A node that scores more is taken first. */
  lemma TopPrefers(f: NodeEntry -> real, s: seq<NodeEntry>, n: int, x: NodeEntry, y: NodeEntry)
    requires x in s && y in Top(f, s, n) && f(x) > f(y)
    ensures TakenBefore(Top(f, s, n), x, y)
  {
    TopRanks(f, s, n);
    var t := Top(f, s, n);
    assert x in t;
    var p :| 0 <= p < |t| && t[p] == x;
    var q :| 0 <= q < |t| && t[q] == y;
    HigherIsEarlier(f, t, p, q);
  }

  // ---------------------------------------------------------------- what makes a node better

  /** The free share of a node's capacity; a node without capacity has none. */
  function FreeShare(n: NodeEntry): real {
    if n.totalBytes == 0 then 0.0 else n.freeBytes as real / n.totalBytes as real
  }

  /** By how much the first node is ahead of the second: each weight counts its own dimension. */
  function Advantage(cfg: Config, x: NodeEntry, y: NodeEntry): real {
    cfg.wLoad * (y.loadFraction - x.loadFraction) + cfg.wCap * (FreeShare(x) - FreeShare(y))
    + cfg.wRel * (y.failureRate - x.failureRate)
  }

  /** In every dimension that counts the first node is at least as good. */
  ghost predicate NoWorse(cfg: Config, x: NodeEntry, y: NodeEntry) {
    && (cfg.wLoad == 0.0 || x.loadFraction <= y.loadFraction)
    && (cfg.wCap == 0.0 || FreeShare(x) >= FreeShare(y))
    && (cfg.wRel == 0.0 || x.failureRate <= y.failureRate)
  }

  /** And in one of them it is better. */
  ghost predicate Better(cfg: Config, x: NodeEntry, y: NodeEntry) {
    && NoWorse(cfg, x, y)
    && (|| (cfg.wLoad != 0.0 && x.loadFraction < y.loadFraction)
        || (cfg.wCap != 0.0 && FreeShare(x) > FreeShare(y))
        || (cfg.wRel != 0.0 && x.failureRate < y.failureRate))
  }

  ghost predicate Weighs(cfg: Config) {
    cfg.wLoad >= 0.0 && cfg.wCap >= 0.0 && cfg.wRel >= 0.0
  }

  lemma ScaleSign(w: real, d: real)
    requires w >= 0.0 && (w == 0.0 || d >= 0.0)
    ensures w * d >= 0.0 && (w != 0.0 && d > 0.0 ==> w * d > 0.0)
  {}

  /** With weights that are not negative, a node no worse is not behind and a better one ahead. */
  lemma BetterIsAhead(cfg: Config, x: NodeEntry, y: NodeEntry)
    requires Weighs(cfg) && NoWorse(cfg, x, y)
    ensures Advantage(cfg, x, y) >= 0.0 && (Better(cfg, x, y) ==> Advantage(cfg, x, y) > 0.0)
  {
    var dl, dc, dr := y.loadFraction - x.loadFraction, FreeShare(x) - FreeShare(y), y.failureRate - x.failureRate;
    ScaleSign(cfg.wLoad, dl);
    ScaleSign(cfg.wCap, dc);
    ScaleSign(cfg.wRel, dr);
    var l, c, r := cfg.wLoad * dl, cfg.wCap * dc, cfg.wRel * dr;
    assert Advantage(cfg, x, y) == l + c + r;
    assert Better(cfg, x, y) ==> l > 0.0 || c > 0.0 || r > 0.0;
  }

  lemma ScoresByAdvantage(cfg: Config, x: NodeEntry, y: NodeEntry)
    ensures StaticScore(cfg)(x) - StaticScore(cfg)(y) == Advantage(cfg, x, y)
  {
    var dl, dc, dr := y.loadFraction - x.loadFraction, FreeShare(x) - FreeShare(y), y.failureRate - x.failureRate;
    assert (1.0 - x.loadFraction) * cfg.wLoad - (1.0 - y.loadFraction) * cfg.wLoad == cfg.wLoad * dl;
    assert FreeShare(x) * cfg.wCap - FreeShare(y) * cfg.wCap == cfg.wCap * dc;
    assert (1.0 - x.failureRate) * cfg.wRel - (1.0 - y.failureRate) * cfg.wRel == cfg.wRel * dr;
  }

  ghost predicate ChosenBefore(ids: seq<string>, a: string, b: string) {
    exists p, q :: 0 <= p < q < |ids| && ids[p] == a && ids[q] == b
  }

  ghost predicate Ahead(cfg: Config, s: seq<NodeEntry>, i: nat, j: nat)
    requires i < |s| && j < |s|
  {
    Advantage(cfg, s[i], s[j]) > 0.0 || (i < j && Advantage(cfg, s[i], s[j]) >= 0.0)
  }

  /** The choice prefers what is ahead: whoever is chosen, every candidate ahead of it was chosen
      before it, and every earlier candidate not behind it. */
  ghost predicate PrefersAhead(cfg: Config, candidates: seq<NodeEntry>, ids: seq<string>) {
    forall i, j :: 0 <= i < |candidates| && 0 <= j < |candidates| && candidates[j].nodeId in ids && Ahead(cfg, candidates, i, j) ==>
      ChosenBefore(ids, candidates[i].nodeId, candidates[j].nodeId)
  }

  lemma TakenIsChosen(t: seq<NodeEntry>, x: NodeEntry, y: NodeEntry)
    requires TakenBefore(t, x, y)
    ensures ChosenBefore(Ids(t), x.nodeId, y.nodeId)
  {
    var p, q :| 0 <= p < q < |t| && t[p] == x && t[q] == y;
    assert Ids(t)[p] == x.nodeId && Ids(t)[q] == y.nodeId;
  }

  lemma TopPrefersAhead(cfg: Config, s: seq<NodeEntry>, n: int)
    requires DistinctIds(s)
    ensures PrefersAhead(cfg, s, Ids(Top(StaticScore(cfg), s, n)))
  {
    var f := StaticScore(cfg);
    var t := Top(f, s, n);
    forall i, j | 0 <= i < |s| && 0 <= j < |s| && s[j].nodeId in Ids(t) && Ahead(cfg, s, i, j)
      ensures ChosenBefore(Ids(t), s[i].nodeId, s[j].nodeId)
    {
      ScoresByAdvantage(cfg, s[i], s[j]);
      ChosenIsTaken(f, s, n, j);
      if Advantage(cfg, s[i], s[j]) > 0.0 {
        TopPrefers(f, s, n, s[i], s[j]);
      } else {
        TopStable(f, s, n, i, j);
      }
      TakenIsChosen(t, s[i], s[j]);
    }
  }

  lemma ChosenIsTaken(f: NodeEntry -> real, s: seq<NodeEntry>, n: int, j: nat)
    requires DistinctIds(s) && j < |s| && s[j].nodeId in Ids(Top(f, s, n))
    ensures s[j] in Top(f, s, n)
  {
    var t := Top(f, s, n);
    TopTakes(f, s, n);
    var q :| 0 <= q < |t| && Ids(t)[q] == s[j].nodeId;
    assert t[q] in t && t[q] in s;
    var k :| 0 <= k < |s| && s[k] == t[q];
  }

  /** With weights that are not negative a better node is always chosen before a worse one, and a
      node no worse before a later one. */
  lemma BetterIsChosenFirst(cfg: Config, candidates: seq<NodeEntry>, ids: seq<string>, i: nat, j: nat)
    requires Weighs(cfg) && PrefersAhead(cfg, candidates, ids) && i < |candidates| && j < |candidates| && i != j
    requires Better(cfg, candidates[i], candidates[j]) || (i < j && NoWorse(cfg, candidates[i], candidates[j]))
    requires candidates[j].nodeId in ids
    ensures ChosenBefore(ids, candidates[i].nodeId, candidates[j].nodeId)
  {
    BetterIsAhead(cfg, candidates[i], candidates[j]);
    assert Ahead(cfg, candidates, i, j);
  }

  // ---------------------------------------------------------------- selection

  /** A selection of n nodes: as many as there are candidates for, distinct and not excluded. */
  ghost predicate Selection(n: int, alive: seq<NodeEntry>, exclude: set<string>, ids: seq<string>) {
    && |ids| == Least(n, |Candidates(alive, exclude)|) && Distinct(ids)
    && forall i :: 0 <= i < |ids| ==> ids[i] !in exclude && ids[i] in Ids(alive)
  }

  /** std::max_element: the first node no other one beats. */
  method MaxElement(f: NodeEntry -> real, s: seq<NodeEntry>) returns (b: nat)
    requires s != []
    ensures b == FirstBest(f, s)
  {
    b := 0;
    for i := 1 to |s|
      invariant b < i
      invariant forall k :: 0 <= k < i ==> f(s[k]) <= f(s[b])
      invariant forall k :: 0 <= k < b ==> f(s[k]) < f(s[b])
    {
      if f(s[b]) < f(s[i]) {
        b := i;
      }
    }
    assert IsFirstBest(f, s, b);
    OneFirstBest(f, s, b, FirstBest(f, s));
  }

  lemma OneFirstBest(f: NodeEntry -> real, s: seq<NodeEntry>, a: nat, b: nat)
    requires IsFirstBest(f, s, a) && IsFirstBest(f, s, b)
    ensures a == b
  {
    assert f(s[a]) == f(s[b]);
  }

  function ScoreAmid(cfg: Config, chosen: set<string>): NodeEntry -> real {
    n => Score(cfg, n, chosen)
  }

  function StaticScore(cfg: Config): NodeEntry -> real {
    ScoreAmid(cfg, {})
  }

  /** Nodes outside the chosen set score as if nothing had been chosen. */
  lemma UnchosenScoresStatically(cfg: Config, s: seq<NodeEntry>, chosen: set<string>)
    requires s != [] && NoneChosen(s, chosen)
    ensures FirstBest(ScoreAmid(cfg, chosen), s) == FirstBest(StaticScore(cfg), s)
  {
    var f, g := ScoreAmid(cfg, chosen), StaticScore(cfg);
    forall i | 0 <= i < |s| ensures f(s[i]) == g(s[i]) {
      assert s[i] in s;
    }
    SameBest(f, g, s);
  }

  lemma SameBest(f: NodeEntry -> real, g: NodeEntry -> real, s: seq<NodeEntry>)
    requires s != [] && forall i :: 0 <= i < |s| ==> f(s[i]) == g(s[i])
    ensures FirstBest(f, s) == FirstBest(g, s)
  {
    OneFirstBest(f, s, FirstBest(f, s), FirstBest(g, s));
  }

  /** Greedy placement is the static ranking: with distinct node ids the changing diversity
      term never affects a choice. */
  method SelectNodes(cfg: Config, n: int, alive: seq<NodeEntry>, exclude: set<string>) returns (result: seq<string>)
    requires DistinctIds(alive)
    ensures result == Ids(Top(StaticScore(cfg), Candidates(alive, exclude), n))
    ensures Selection(n, alive, exclude, result) && PrefersAhead(cfg, Candidates(alive, exclude), result)
  {
    CandidatesDistinct(alive, exclude);
    result := Greedy(cfg, n, Candidates(alive, exclude));
    TopDistinct(StaticScore(cfg), Candidates(alive, exclude), n);
    TopIsSelection(StaticScore(cfg), alive, exclude, n);
    TopPrefersAhead(cfg, Candidates(alive, exclude), n);
  }

  ghost predicate NoneChosen(candidates: seq<NodeEntry>, chosen: set<string>) {
    forall x <- candidates :: x.nodeId !in chosen
  }

  method Greedy(cfg: Config, n: int, all: seq<NodeEntry>) returns (result: seq<string>)
    requires DistinctIds(all)
    ensures result == Ids(Top(StaticScore(cfg), all, n))
  {
    var candidates := all;
    ghost var rank := StaticScore(cfg);
    result := [];
    var chosen: set<string> := {};
    ghost var picked: seq<NodeEntry> := [];
    var i := 0;
    while i < n && candidates != []
      invariant 0 <= i && (i <= n || i == 0)
      invariant result == Ids(picked) && DistinctIds(candidates) && NoneChosen(candidates, chosen)
      invariant picked + Top(rank, candidates, n - i) == Top(rank, all, n)
      decreases |candidates|
    {
      TopUnfolds(rank, picked, candidates, n - i);
      var best;
      best, candidates := TakeBest(cfg, candidates, chosen);
      result := result + [best.nodeId];
      chosen := chosen + {best.nodeId};
      picked := picked + [best];
      i := i + 1;
    }
    assert Top(rank, candidates, n - i) == [];
  }

  /** Takes the first node with the best score amid the chosen ones off the candidates. */
  method TakeBest(cfg: Config, candidates: seq<NodeEntry>, chosen: set<string>)
    returns (best: NodeEntry, rest: seq<NodeEntry>)
    requires candidates != [] && DistinctIds(candidates) && NoneChosen(candidates, chosen)
    ensures best == candidates[FirstBest(StaticScore(cfg), candidates)] && rest == WithoutBest(StaticScore(cfg), candidates)
    ensures DistinctIds(rest) && NoneChosen(rest, chosen + {best.nodeId})
  {
    var b := MaxElement(ScoreAmid(cfg, chosen), candidates);
    UnchosenScoresStatically(cfg, candidates, chosen);
    RestUnchosen(candidates, b, chosen);
    return candidates[b], candidates[..b] + candidates[b + 1..];
  }

  lemma RestUnchosen(s: seq<NodeEntry>, b: nat, chosen: set<string>)
    requires b < |s| && DistinctIds(s) && NoneChosen(s, chosen)
    ensures var rest := s[..b] + s[b + 1..]; DistinctIds(rest) && NoneChosen(rest, chosen + {s[b].nodeId})
  {
    RemovedDistinct(s, b);
  }

  lemma TopIsSelection(f: NodeEntry -> real, alive: seq<NodeEntry>, exclude: set<string>, n: int)
    requires DistinctIds(Top(f, Candidates(alive, exclude), n))
    ensures Selection(n, alive, exclude, Ids(Top(f, Candidates(alive, exclude), n)))
  {
    var t := Top(f, Candidates(alive, exclude), n);
    TopTakes(f, Candidates(alive, exclude), n);
    forall i | 0 <= i < |t| ensures t[i].nodeId !in exclude && t[i].nodeId in Ids(alive) {
      assert t[i] in t && t[i] in alive;
      var k :| 0 <= k < |alive| && alive[k] == t[i];
      assert Ids(alive)[k] == t[i].nodeId;
    }
  }

  /** Random placement takes a prefix of any shuffle of the candidates. */
  method SelectShuffled(n: int, alive: seq<NodeEntry>, exclude: set<string>, shuffled: seq<NodeEntry>) returns (result: seq<string>)
    requires DistinctIds(shuffled) && |shuffled| == |Candidates(alive, exclude)|
    requires forall x <- shuffled :: x in Candidates(alive, exclude)
    ensures Selection(n, alive, exclude, result)
  {
    result := [];
    var i := 0;
    while i < n && i < |shuffled|
      invariant 0 <= i <= |shuffled| && (i <= n || i == 0)
      invariant result == Ids(shuffled)[..i]
    {
      result := result + [shuffled[i].nodeId];
      i := i + 1;
    }
    forall k | 0 <= k < |result| ensures result[k] !in exclude && result[k] in Ids(alive) {
      assert shuffled[k] in shuffled && shuffled[k] in alive;
      var j :| 0 <= j < |alive| && alive[j] == shuffled[k];
      assert Ids(alive)[j] == result[k];
    }
  }
}
