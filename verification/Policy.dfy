/** The adaptive replication policy: per-chunk access windows drive a tier through a
    hysteresis automaton (src/meta/policy.cpp). */
module Policy {
  import opened Text

  datatype Tier = Cold | Warm | Hot

  function Rank(t: Tier): nat {
    match t case Cold => 0 case Warm => 1 case Hot => 2
  }

  datatype Config = Config(
    coldThreshold: real, hotThreshold: real, coldRf: int, warmRf: int, hotRf: int,
    promoteWindows: int, demoteWindows: int)

  /** The hysteresis part of a chunk's state. */
  datatype Gauge = Gauge(tier: Tier, above: nat, below: nat)

  datatype Access = Access(gauge: Gauge, pending: nat, ewma: real, lastEvalMs: nat, lastUpdateMs: nat)

  const FRESH: Access := Access(Gauge(Warm, 0, 0), 0, 0.0, 0, 0)

  function Classify(cfg: Config, rate: real): Tier {
    if rate > cfg.hotThreshold then Hot else if rate >= cfg.coldThreshold then Warm else Cold
  }

  function RfForTier(cfg: Config, t: Tier): int {
    match t case Hot => cfg.hotRf case Warm => cfg.warmRf case Cold => cfg.coldRf
  }

  function Changes(cfg: Config, g: Gauge, window: Tier): bool {
    || (Rank(window) > Rank(g.tier) && g.above + 1 >= cfg.promoteWindows)
    || (Rank(window) < Rank(g.tier) && g.below + 1 >= cfg.demoteWindows)
  }

  function Advance(cfg: Config, g: Gauge, window: Tier): Gauge {
    if Changes(cfg, g, window) then Gauge(window, 0, 0)
    else if Rank(window) > Rank(g.tier) then Gauge(g.tier, g.above + 1, 0)
    else if Rank(window) < Rank(g.tier) then Gauge(g.tier, 0, g.below + 1)
    else Gauge(g.tier, 0, 0)
  }

  // ---------------------------------------------------------------- hysteresis over traces

  /** The gauge before window k of a trace. */
  function Before(cfg: Config, windows: seq<Tier>, k: nat): Gauge
    requires k <= |windows|
  {
    if k == 0 then FRESH.gauge else Advance(cfg, Before(cfg, windows, k - 1), windows[k - 1])
  }

  predicate ChangesAt(cfg: Config, windows: seq<Tier>, k: nat)
    requires k < |windows|
  {
    Changes(cfg, Before(cfg, windows, k), windows[k])
  }

  /** The window lies strictly above, or below, the tier. */
  predicate Beyond(window: Tier, tier: Tier, up: bool) {
    if up then Rank(window) > Rank(tier) else Rank(window) < Rank(tier)
  }

  /** Windows from..k-1 all lay strictly on one side of the tier of their time and none of
      them changed it. */
  ghost predicate Streak(cfg: Config, windows: seq<Tier>, from: int, k: nat, up: bool)
    requires k <= |windows|
  {
    && 0 <= from <= k
    && forall j: nat :: from <= j < k ==>
         !ChangesAt(cfg, windows, j) && Beyond(windows[j], Before(cfg, windows, j).tier, up)
  }

  function Counter(g: Gauge, up: bool): nat {
    if up then g.above else g.below
  }

  lemma StreakGrows(cfg: Config, windows: seq<Tier>, from: int, k: nat, up: bool)
    requires 0 < k <= |windows| && from < k
    ensures Streak(cfg, windows, from, k, up) <==>
      && Streak(cfg, windows, from, k - 1, up) && !ChangesAt(cfg, windows, k - 1)
      && Beyond(windows[k - 1], Before(cfg, windows, k - 1).tier, up)
  {}

  lemma CounterAdvances(cfg: Config, g: Gauge, window: Tier, m: nat, up: bool)
    requires m > 0
    ensures Counter(Advance(cfg, g, window), up) >= m <==>
      Counter(g, up) >= m - 1 && !Changes(cfg, g, window) && Beyond(window, g.tier, up)
  {}

  /** The counters are exactly the lengths of the current streaks. */
  lemma {:induction false} CountersMeasureStreaks(cfg: Config, windows: seq<Tier>, k: nat, m: nat, up: bool)
    requires k <= |windows|
    ensures Counter(Before(cfg, windows, k), up) >= m <==> Streak(cfg, windows, k - m, k, up)
  {
    if k > 0 && m > 0 {
      CountersMeasureStreaks(cfg, windows, k - 1, m - 1, up);
      StreakGrows(cfg, windows, k - m, k, up);
      CounterAdvances(cfg, Before(cfg, windows, k - 1), windows[k - 1], m, up);
    }
  }

  /** The two counters are never both positive. */
  lemma {:induction false} OneCounterRuns(cfg: Config, windows: seq<Tier>, k: nat)
    requires k <= |windows|
    ensures Before(cfg, windows, k).above == 0 || Before(cfg, windows, k).below == 0
  {
    if k > 0 {
      OneCounterRuns(cfg, windows, k - 1);
    }
  }

  lemma {:induction false} StreakKeepsTier(cfg: Config, windows: seq<Tier>, from: nat, k: nat, up: bool)
    requires k <= |windows| && Streak(cfg, windows, from, k, up)
    ensures forall j: nat :: from <= j <= k ==> Before(cfg, windows, j).tier == Before(cfg, windows, k).tier
    decreases k
  {
    if from < k {
      StreakKeepsTier(cfg, windows, from, k - 1, up);
      assert !ChangesAt(cfg, windows, k - 1);
    }
  }

  function AtLeastOne(n: int): nat {
    if n < 1 then 1 else n
  }

  /** The last `n` windows up to and including k lie on one side of the tier current at k, and
      none before k ended in a change. */
  ghost predicate FullRun(cfg: Config, windows: seq<Tier>, k: nat, n: nat, up: bool)
    requires k < |windows|
  {
    n <= k + 1 &&
    forall j: nat :: k + 1 - n <= j <= k ==>
      Beyond(windows[j], Before(cfg, windows, k).tier, up) && (j < k ==> !ChangesAt(cfg, windows, j))
  }

  lemma StreakIsRun(cfg: Config, windows: seq<Tier>, k: nat, n: nat, up: bool)
    requires k < |windows| && n >= 1
    ensures FullRun(cfg, windows, k, n, up) <==>
      Streak(cfg, windows, k - (n - 1), k, up) && Beyond(windows[k], Before(cfg, windows, k).tier, up)
  {
    if Streak(cfg, windows, k - (n - 1), k, up) && Beyond(windows[k], Before(cfg, windows, k).tier, up) {
      RunOfStreak(cfg, windows, k, n, up);
    }
    if FullRun(cfg, windows, k, n, up) {
      StreakOfRun(cfg, windows, k, n, up);
    }
  }

  lemma RunOfStreak(cfg: Config, windows: seq<Tier>, k: nat, n: nat, up: bool)
    requires k < |windows| && n >= 1
    requires Streak(cfg, windows, k - (n - 1), k, up) && Beyond(windows[k], Before(cfg, windows, k).tier, up)
    ensures FullRun(cfg, windows, k, n, up)
  {
    StreakKeepsTier(cfg, windows, k - (n - 1), k, up);
    forall j: nat | k + 1 - n <= j <= k
      ensures Beyond(windows[j], Before(cfg, windows, k).tier, up) && (j < k ==> !ChangesAt(cfg, windows, j)) {
      assert Before(cfg, windows, j).tier == Before(cfg, windows, k).tier;
    }
  }

  lemma StreakOfRun(cfg: Config, windows: seq<Tier>, k: nat, n: nat, up: bool)
    requires k < |windows| && n >= 1 && FullRun(cfg, windows, k, n, up)
    ensures Streak(cfg, windows, k - (n - 1), k, up) && Beyond(windows[k], Before(cfg, windows, k).tier, up)
  {
    UnchangedKeepsTier(cfg, windows, k + 1 - n, k);
    forall j: nat | k - (n - 1) <= j < k
      ensures !ChangesAt(cfg, windows, j) && Beyond(windows[j], Before(cfg, windows, j).tier, up) {
      assert Before(cfg, windows, j).tier == Before(cfg, windows, k).tier;
    }
  }

  lemma {:induction false} UnchangedKeepsTier(cfg: Config, windows: seq<Tier>, from: nat, k: nat)
    requires from <= k <= |windows| && forall j: nat :: from <= j < k ==> !ChangesAt(cfg, windows, j)
    ensures forall j: nat :: from <= j <= k ==> Before(cfg, windows, j).tier == Before(cfg, windows, k).tier
    decreases k
  {
    if from < k {
      UnchangedKeepsTier(cfg, windows, from, k - 1);
      assert !ChangesAt(cfg, windows, k - 1);
    }
  }

  /** Over every trace, window k reports a change exactly when it completes a full run of
      promoting or of demoting windows. */
  lemma ChangeExactlyAfterRun(cfg: Config, windows: seq<Tier>, k: nat)
    requires k < |windows|
    ensures ChangesAt(cfg, windows, k) <==>
      || FullRun(cfg, windows, k, AtLeastOne(cfg.promoteWindows), true)
      || FullRun(cfg, windows, k, AtLeastOne(cfg.demoteWindows), false)
    ensures ChangesAt(cfg, windows, k) ==> Before(cfg, windows, k + 1).tier == windows[k]
  {
    var p, d := AtLeastOne(cfg.promoteWindows), AtLeastOne(cfg.demoteWindows);
    CountersMeasureStreaks(cfg, windows, k, p - 1, true);
    CountersMeasureStreaks(cfg, windows, k, d - 1, false);
    StreakIsRun(cfg, windows, k, p, true);
    StreakIsRun(cfg, windows, k, d, false);
  }

  /** A trace without such a run keeps its initial tier for good. */
  lemma {:induction false} NoRunNoChange(cfg: Config, windows: seq<Tier>, k: nat)
    requires k <= |windows|
    requires forall j: nat :: j < k ==>
      && !FullRun(cfg, windows, j, AtLeastOne(cfg.promoteWindows), true)
      && !FullRun(cfg, windows, j, AtLeastOne(cfg.demoteWindows), false)
    ensures Before(cfg, windows, k).tier == Warm
  {
    if k > 0 {
      NoRunNoChange(cfg, windows, k - 1);
      ChangeExactlyAfterRun(cfg, windows, k - 1);
    }
  }

  // ---------------------------------------------------------------- evaluations

  /** Seconds since the last evaluation; the unsigned difference wraps when the clock steps back. */
  function Elapsed(s: Access, now: nat): (r: real)
    ensures r > 0.0
  {
    if s.lastEvalMs == 0 then 2.0
    else
      var seconds := ((now as int - s.lastEvalMs) % U64) as real / 1000.0;
      if seconds < 0.1 then 0.1 else seconds
  }

  function WindowOf(cfg: Config, s: Access, now: nat): Tier {
    Classify(cfg, s.pending as real / Elapsed(s, now))
  }

  /** Thresholds and factors that rise with the tier. */
  ghost predicate Ordered(cfg: Config) {
    cfg.coldThreshold <= cfg.hotThreshold && cfg.coldRf <= cfg.warmRf <= cfg.hotRf
  }

  /** The three intervals of a rate. */
  lemma TierIntervals(cfg: Config, rate: real)
    requires cfg.coldThreshold <= cfg.hotThreshold
    ensures Classify(cfg, rate) == Hot <==> cfg.hotThreshold < rate
    ensures Classify(cfg, rate) == Warm <==> cfg.coldThreshold <= rate <= cfg.hotThreshold
    ensures Classify(cfg, rate) == Cold <==> rate < cfg.coldThreshold
  {}

  /** A busier window never gets a lower tier nor a smaller factor. */
  lemma BusierIsHigher(cfg: Config, r: real, q: real)
    requires Ordered(cfg) && r <= q
    ensures Rank(Classify(cfg, r)) <= Rank(Classify(cfg, q))
    ensures RfForTier(cfg, Classify(cfg, r)) <= RfForTier(cfg, Classify(cfg, q))
  {}

  lemma Quotient(a: real, b: real, t: real)
    requires b > 0.0
    ensures a / b > t <==> a > t * b
    ensures a / b < t <==> a < t * b
  {
    var q := a / b;
    assert q * b == a;
    if q > t {
      assert (q - t) * b > 0.0;
    } else if q < t {
      assert (t - q) * b > 0.0;
    }
  }

  /** The length of a window in milliseconds: the first counts as two seconds, and none as less
      than a tenth of one. */
  function WindowMillis(s: Access, now: nat): nat
    requires s.lastEvalMs <= now
  {
    if s.lastEvalMs == 0 then 2000 else if now - s.lastEvalMs < 100 then 100 else now - s.lastEvalMs
  }

  lemma ElapsedIs(s: Access, now: nat)
    requires s.lastEvalMs <= now < U64
    ensures Elapsed(s, now) * 1000.0 == WindowMillis(s, now) as real
  {
    assert (now as int - s.lastEvalMs) % U64 == now - s.lastEvalMs;
  }

  /** On a clock that does not step back a window is classed by its accesses per second. */
  lemma WindowByRate(cfg: Config, s: Access, now: nat)
    requires cfg.coldThreshold <= cfg.hotThreshold && s.lastEvalMs <= now < U64
    ensures var millis := WindowMillis(s, now) as real;
      && (WindowOf(cfg, s, now) == Hot <==> s.pending as real * 1000.0 > cfg.hotThreshold * millis)
      && (WindowOf(cfg, s, now) == Cold <==> s.pending as real * 1000.0 < cfg.coldThreshold * millis)
  {
    var count, secs := s.pending as real, Elapsed(s, now);
    ElapsedIs(s, now);
    Quotient(count, secs, cfg.hotThreshold);
    Quotient(count, secs, cfg.coldThreshold);
    assert cfg.hotThreshold * (secs * 1000.0) == cfg.hotThreshold * secs * 1000.0;
    assert cfg.coldThreshold * (secs * 1000.0) == cfg.coldThreshold * secs * 1000.0;
  }

  datatype Decision = Decision(newRf: int, newTier: Tier, changed: bool)

  /** A chunk's history: accesses ever recorded, accesses evaluations have consumed, and the
      classes of the evaluated windows. */
  datatype Ledger = Ledger(recorded: nat, consumed: nat, windows: seq<Tier>)

  const BLANK: Ledger := Ledger(0, 0, [])

  /** Every recorded access is consumed or pending, and the gauge is the history's gauge. */
  ghost predicate Balanced(cfg: Config, s: Access, l: Ledger) {
    l.recorded == l.consumed + s.pending && s.gauge == Before(cfg, l.windows, |l.windows|)
  }

  function Closed(cfg: Config, s: Access, l: Ledger, now: nat): Ledger {
    Ledger(l.recorded, l.consumed + s.pending, l.windows + [WindowOf(cfg, s, now)])
  }

  /** Closing a window as `evaluate` does. */
  method CloseWindow(cfg: Config, s: Access, now: nat, alpha: real, ghost l: Ledger) returns (s': Access, d: Decision)
    requires Balanced(cfg, s, l)
    ensures s'.pending == 0 && s'.lastEvalMs == now && Balanced(cfg, s', Closed(cfg, s, l, now))
    ensures d.newTier == WindowOf(cfg, s, now) && d.newRf == RfForTier(cfg, d.newTier)
    ensures d.changed <==> ChangesAt(cfg, l.windows + [d.newTier], |l.windows|)
    ensures d.changed ==> s'.gauge.tier == d.newTier
  {
    var rate := s.pending as real / Elapsed(s, now);
    var ewma := if s.lastUpdateMs == 0 then rate else alpha * rate + (1.0 - alpha) * s.ewma;
    var desired := Classify(cfg, rate);
    var g := s.gauge;
    var changed := false;
    if Rank(desired) > Rank(g.tier) {
      g := g.(above := g.above + 1, below := 0);
      if g.above >= cfg.promoteWindows {
        g := g.(tier := desired, above := 0);
        changed := true;
      }
    } else if Rank(desired) < Rank(g.tier) {
      g := g.(below := g.below + 1, above := 0);
      if g.below >= cfg.demoteWindows {
        g := g.(tier := desired, below := 0);
        changed := true;
      }
    } else {
      g := g.(above := 0, below := 0);
    }
    ExtendTrace(cfg, l.windows, desired);
    s' := Access(g, 0, ewma, now, now);
    d := Decision(RfForTier(cfg, desired), desired, changed);
  }

  function AccessOf(state: map<string, Access>, id: string): Access {
    if id in state then state[id] else FRESH
  }

  function LedgerOf(ledger: map<string, Ledger>, id: string): Ledger {
    if id in ledger then ledger[id] else BLANK
  }

  class AdaptivePolicy {
    const cfg: Config
    var state: map<string, Access>
    ghost var ledger: map<string, Ledger>

    ghost predicate Valid()
      reads this
    {
      state.Keys == ledger.Keys && forall c <- state :: Balanced(cfg, state[c], ledger[c])
    }

    constructor (c: Config)
      ensures Valid() && cfg == c && state == map[]
    {
      cfg, state, ledger := c, map[], map[];
    }

    method RecordAccesses(id: string, count: nat)
      requires Valid()
      modifies this
      ensures Valid()
      ensures ledger == old(ledger)[id := LedgerOf(old(ledger), id).(recorded := LedgerOf(old(ledger), id).recorded + count)]
    {
      var s := AccessOf(state, id);
      ghost var l := LedgerOf(ledger, id);
      state := state[id := s.(pending := s.pending + count)];
      ledger := ledger[id := l.(recorded := l.recorded + count)];
    }

    /** Closes a chunk's window: all its pending accesses are consumed, its history grows by the
        window's class, and the decision reports a change exactly as the history says. */
    method Evaluate(id: string, now: nat, alpha: real) returns (d: Decision)
      requires Valid()
      modifies this
      ensures Valid() && id in state && state[id].pending == 0
      ensures ledger == old(ledger)[id := Closed(cfg, AccessOf(old(state), id), LedgerOf(old(ledger), id), now)]
      ensures d.newRf == RfForTier(cfg, d.newTier) && d.newTier == WindowOf(cfg, AccessOf(old(state), id), now)
      ensures d.changed <==>
        ChangesAt(cfg, LedgerOf(old(ledger), id).windows + [d.newTier], |LedgerOf(old(ledger), id).windows|)
    {
      ghost var l := LedgerOf(ledger, id);
      var s;
      s, d := CloseWindow(cfg, AccessOf(state, id), now, alpha, l);
      ledger := ledger[id := Closed(cfg, AccessOf(state, id), l, now)];
      state := state[id := s];
    }
  }

  /** A longer trace has the same gauges up to the shorter one's end. */
  lemma {:induction false} SameBefore(cfg: Config, windows: seq<Tier>, w: Tier, k: nat)
    requires k <= |windows|
    ensures Before(cfg, windows + [w], k) == Before(cfg, windows, k)
  {
    if k > 0 {
      SameBefore(cfg, windows, w, k - 1);
    }
  }

  lemma ExtendTrace(cfg: Config, windows: seq<Tier>, w: Tier)
    ensures var g := Before(cfg, windows, |windows|);
      && Before(cfg, windows + [w], |windows| + 1) == Advance(cfg, g, w)
      && (ChangesAt(cfg, windows + [w], |windows|) <==> Changes(cfg, g, w))
  {
    SameBefore(cfg, windows, w, |windows|);
  }
}
