/** The register that tests/linearizability/check.py documents, and exactly when the checker
    decides it: the two part ways only on GETs that may run on an unwritten register. */
module DocumentedRegister {
  import opened Sets
  import opened Linearizability

  /** The register of the checker's own documentation: every PUT sets the value and a GET
      returns exactly the current one, the empty text standing for an unwritten register. */
  function Documented(op: Op, reg: Register): Outcome {
    if !op.ok then Legal(reg)
    else match op.kind
      case Put => Legal(Holds(op.value))
      case Delete => Legal(Unwritten)
      case Get =>
        if reg == Holds(op.value) || (reg.Unwritten? && op.value == "") then Legal(reg) else Illegal
      case Other => Illegal
  }

  ghost predicate ExecutesAsDocumented(ops: seq<Op>, order: seq<nat>, reg: Register)
    requires Indices(ops, order)
  {
    order == [] ||
    (var first := Documented(ops[order[0]], reg);
     first.Legal? && ExecutesAsDocumented(ops, order[1..], first.reg))
  }

  ghost predicate LinearizableAsDocumented(ops: seq<Op>) {
    exists order :: Schedules(ops, {}, order) && ExecutesAsDocumented(ops, order, Unwritten)
  }

  lemma {:induction false} LenientExecution(ops: seq<Op>, order: seq<nat>, strict: Register, lenient: Register)
    requires Indices(ops, order) && ExecutesAsDocumented(ops, order, strict)
    requires strict.Holds? && strict.value != "" ==> lenient == strict
    ensures Executes(ops, order, lenient)
    decreases |order|
  {
    if order != [] {
      var op := ops[order[0]];
      assert Linearize(op, lenient).Legal?;
      LenientExecution(ops, order[1..], Documented(op, strict).reg, Linearize(op, lenient).reg);
    }
  }

  /** The checker raises no false alarm: a history that is linearizable as documented passes. */
  lemma NoFalseAlarm(ops: seq<Op>)
    requires LinearizableAsDocumented(ops)
    ensures Linearizable(ops)
  {
    var order :| Schedules(ops, {}, order) && ExecutesAsDocumented(ops, order, Unwritten);
    LenientExecution(ops, order, Unwritten, Unwritten);
    assert Completes(ops, {}, Unwritten, order);
  }

  // ---------------------------------------------------------------- shapes of histories

  predicate OkPut(op: Op) {
    op.ok && op.kind.Put?
  }

  predicate OkDelete(op: Op) {
    op.ok && op.kind.Delete?
  }

  predicate OkGet(op: Op) {
    op.ok && op.kind.Get?
  }

  /** The same operations up to their values. */
  ghost predicate SameShape(a: seq<Op>, b: seq<Op>) {
    |a| == |b| && forall i :: 0 <= i < |a| ==> b[i] == a[i].(value := b[i].value)
  }

  /** All successful reads and writes carry data. */
  ghost predicate CarriesData(ops: seq<Op>) {
    forall i :: 0 <= i < |ops| && (OkPut(ops[i]) || OkGet(ops[i])) ==> ops[i].value != ""
  }

  /** A successful DELETE that may come before operation g with no successful PUT forced
      between the two. */
  ghost predicate Erases(ops: seq<Op>, d: nat, g: nat)
    requires g < |ops|
  {
    && d < |ops| && OkDelete(ops[d]) && !RealTimeBefore(ops[g], ops[d])
    && forall p: nat :: p < |ops| && OkPut(ops[p]) && RealTimeBefore(ops[d], ops[p]) ==> !RealTimeBefore(ops[p], ops[g])
  }

  /** A successful GET that may run on an unwritten register: no successful PUT must precede
      it, or a DELETE may erase those that do. */
  ghost predicate Exposed(ops: seq<Op>, g: nat) {
    && g < |ops| && OkGet(ops[g])
    && ((forall p: nat :: p < |ops| && OkPut(ops[p]) ==> !RealTimeBefore(ops[p], ops[g])) || exists d :: Erases(ops, d, g))
  }

  // ---------------------------------------------------------------- where no GET is exposed

  /** The register after the first k operations of an order, whatever the reads returned. */
  function Track(ops: seq<Op>, order: seq<nat>, k: nat): Register
    requires k <= |order| && forall i :: 0 <= i < k ==> order[i] < |ops|
  {
    if k == 0 then Unwritten
    else
      var op := ops[order[k - 1]];
      if OkPut(op) then Holds(op.value) else if OkDelete(op) then Unwritten else Track(ops, order, k - 1)
  }

  lemma {:induction false} PutTracked(ops: seq<Op>, order: seq<nat>, i: nat, k: nat)
    requires Indices(ops, order) && i < k <= |order| && OkPut(ops[order[i]])
    requires forall j :: i < j < k ==> !OkDelete(ops[order[j]])
    ensures Track(ops, order, k).Holds?
  {
    if i < k - 1 {
      PutTracked(ops, order, i, k - 1);
    }
  }

  /** The position of an operation in a schedule, and what must precede it comes before. */
  lemma PlacedBefore(ops: seq<Op>, order: seq<nat>, a: nat, k: nat) returns (i: nat)
    requires Schedules(ops, {}, order) && k < |order| && a < |ops| && a != order[k]
    requires RealTimeBefore(ops[a], ops[order[k]])
    ensures i < k && order[i] == a
  {
    assert a in Below(|ops|) - {} && a in Elements(order);
    i :| 0 <= i < |order| && order[i] == a;
  }

  ghost predicate LastDelete(ops: seq<Op>, order: seq<nat>, d: nat, k: nat)
    requires Indices(ops, order) && k <= |order|
  {
    d < k && OkDelete(ops[order[d]]) && forall j :: d < j < k ==> !OkDelete(ops[order[j]])
  }

  lemma {:induction false} FindLastDelete(ops: seq<Op>, order: seq<nat>, k: nat)
    requires Indices(ops, order) && k <= |order|
    ensures (exists d :: LastDelete(ops, order, d, k)) || forall j :: 0 <= j < k ==> !OkDelete(ops[order[j]])
  {
    if k > 0 {
      if OkDelete(ops[order[k - 1]]) {
        assert LastDelete(ops, order, k - 1, k);
      } else {
        var n := k - 1;
        FindLastDelete(ops, order, n);
        if d: nat :| LastDelete(ops, order, d, n) {
          assert LastDelete(ops, order, d, k);
        }
      }
    }
  }

  /** In every schedule a GET that is not exposed runs on a written register. */
  lemma CoveredGetReadsData(ops: seq<Op>, order: seq<nat>, k: nat)
    requires Schedules(ops, {}, order) && k < |order| && OkGet(ops[order[k]]) && !Exposed(ops, order[k])
    ensures Track(ops, order, k).Holds?
  {
    var g := order[k];
    FindLastDelete(ops, order, k);
    if d: nat :| LastDelete(ops, order, d, k) {
      assert !Erases(ops, order[d], g);
      var p: nat :| p < |ops| && OkPut(ops[p]) && RealTimeBefore(ops[order[d]], ops[p]) && RealTimeBefore(ops[p], ops[g]);
      var i := PlacedBefore(ops, order, p, k);
      assert i > d;
      PutTracked(ops, order, i, k);
    } else {
      var p: nat :| p < |ops| && OkPut(ops[p]) && RealTimeBefore(ops[p], ops[g]);
      var i := PlacedBefore(ops, order, p, k);
      PutTracked(ops, order, i, k);
    }
  }

  lemma {:induction false} SameExecution(ops: seq<Op>, order: seq<nat>, k: nat)
    requires Indices(ops, order) && k <= |order| && CarriesData(ops)
    requires forall j :: 0 <= j < |order| && OkGet(ops[order[j]]) ==> Track(ops, order, j).Holds?
    ensures Executes(ops, order[k..], Track(ops, order, k)) <==> ExecutesAsDocumented(ops, order[k..], Track(ops, order, k))
    decreases |order| - k
  {
    if k < |order| {
      var op, reg := ops[order[k]], Track(ops, order, k);
      assert order[k..][0] == order[k] && order[k..][1..] == order[k + 1..];
      assert Linearize(op, reg) == Documented(op, reg);
      assert Linearize(op, reg).Legal? ==> Linearize(op, reg).reg == Track(ops, order, k + 1);
      SameExecution(ops, order, k + 1);
    }
  }

  /** Without exposed GETs the checker decides exactly the documented register. */
  lemma ExactWhenCovered(ops: seq<Op>)
    requires CarriesData(ops) && forall g :: !Exposed(ops, g)
    ensures Linearizable(ops) <==> LinearizableAsDocumented(ops)
  {
    forall order: seq<nat> | Schedules(ops, {}, order)
      ensures Executes(ops, order, Unwritten) <==> ExecutesAsDocumented(ops, order, Unwritten)
    {
      forall j | 0 <= j < |order| && OkGet(ops[order[j]]) ensures Track(ops, order, j).Holds? {
        CoveredGetReadsData(ops, order, j);
      }
      SameExecution(ops, order, 0);
      assert order[0..] == order;
    }
    if Linearizable(ops) {
      var order :| Completes(ops, {}, Unwritten, order);
      assert ExecutesAsDocumented(ops, order, Unwritten);
    }
    if LinearizableAsDocumented(ops) {
      NoFalseAlarm(ops);
    }
  }

  // ---------------------------------------------------------------- where some GET is exposed

  /** Intervals that run forward and of which no two must precede each other. */
  ghost predicate Orderly(ops: seq<Op>) {
    && (forall i :: 0 <= i < |ops| ==> ops[i].start <= ops[i].end)
    && forall i, j :: 0 <= i < |ops| && 0 <= j < |ops| && i != j && RealTimeBefore(ops[i], ops[j]) ==>
         !RealTimeBefore(ops[j], ops[i])
  }

  /** Levels that real time never lowers. */
  ghost predicate Rises(ops: seq<Op>, level: nat -> nat) {
    forall i: nat, j: nat :: i < |ops| && j < |ops| && i != j && RealTimeBefore(ops[i], ops[j]) ==> level(i) <= level(j)
  }

  predicate Earlier(ops: seq<Op>, level: nat -> nat, i: nat, j: nat)
    requires i < |ops| && j < |ops|
  {
    || level(i) < level(j)
    || (level(i) == level(j) && (ops[i].start < ops[j].start || (ops[i].start == ops[j].start && ops[i].end <= ops[j].end)))
  }

  ghost predicate SortedBy(ops: seq<Op>, level: nat -> nat, order: seq<nat>)
    requires Indices(ops, order)
  {
    forall a, b :: 0 <= a < b < |order| ==> Earlier(ops, level, order[a], order[b])
  }

  lemma {:induction false} LastOf(ops: seq<Op>, level: nat -> nat, s: set<nat>) returns (m: nat)
    requires s != {} && forall i <- s :: i < |ops|
    ensures m in s && forall i <- s :: Earlier(ops, level, i, m)
    decreases s
  {
    var x :| x in s;
    m := x;
    if s != {x} {
      var y := LastOf(ops, level, s - {x});
      m := if Earlier(ops, level, x, y) then y else x;
      forall i | i in s ensures Earlier(ops, level, i, m) {
        assert i == x || i in s - {x};
      }
    }
  }

  lemma {:induction false} SortSet(ops: seq<Op>, level: nat -> nat, s: set<nat>) returns (order: seq<nat>)
    requires forall i <- s :: i < |ops|
    ensures Indices(ops, order) && Distinct(order) && Elements(order) == s && SortedBy(ops, level, order)
    decreases s
  {
    if s == {} {
      order := [];
    } else {
      var m := LastOf(ops, level, s);
      var init := SortSet(ops, level, s - {m});
      order := init + [m];
      forall a | 0 <= a < |init| ensures init[a] in s - {m} {
        assert init[a] in Elements(init);
      }
      assert Elements(order) == Elements(init) + {m};
    }
  }

  /** Sorting by rising levels schedules an orderly history. */
  lemma SortedSchedule(ops: seq<Op>, level: nat -> nat) returns (order: seq<nat>)
    requires Orderly(ops) && Rises(ops, level)
    ensures Schedules(ops, {}, order) && SortedBy(ops, level, order)
  {
    order := SortSet(ops, level, Below(|ops|));
    assert Below(|ops|) - {} == Below(|ops|);
    forall a, b | 0 <= a < b < |order| ensures !RealTimeBefore(ops[order[b]], ops[order[a]]) {
      assert Earlier(ops, level, order[a], order[b]) && order[a] != order[b];
    }
  }

  /** Levels that put the erasing DELETE, if any, and what need not precede it out of the way:
      operations before it, the DELETE, those between, the GET, the rest. */
  ghost function Level(ops: seq<Op>, g: nat, d: int): nat -> nat {
    (i: nat) =>
      if i == g then 3 else if i as int == d then 1
      else if i >= |ops| || g >= |ops| then 4
      else if 0 <= d < |ops| && RealTimeBefore(ops[i], ops[d]) then 0
      else if !RealTimeBefore(ops[i], ops[g]) then 4
      else if 0 <= d < |ops| && !RealTimeBefore(ops[d], ops[i]) then 0
      else 2
  }

  lemma LevelRises(ops: seq<Op>, g: nat, d: int)
    requires Orderly(ops) && g < |ops| && d != g && -1 <= d < |ops|
    requires 0 <= d ==> !RealTimeBefore(ops[g], ops[d])
    ensures Rises(ops, Level(ops, g, d))
  {
    var level := Level(ops, g, d);
    forall i: nat, j: nat | i < |ops| && j < |ops| && i != j && RealTimeBefore(ops[i], ops[j]) ensures level(i) <= level(j) {
      assert !RealTimeBefore(ops[j], ops[i]);
    }
  }

  lemma {:induction false} ErasedTracked(ops: seq<Op>, order: seq<nat>, from: nat, k: nat)
    requires Indices(ops, order) && from <= k <= |order| && Track(ops, order, from).Unwritten?
    requires forall j :: from <= j < k ==> !OkPut(ops[order[j]])
    ensures Track(ops, order, k).Unwritten?
  {
    if from < k {
      ErasedTracked(ops, order, from, k - 1);
    }
  }

  /** The condition that exposes a GET: a DELETE that erases what must precede it, or, with d
      negative, nothing to erase. */
  ghost predicate Uncovers(ops: seq<Op>, g: nat, d: int)
    requires g < |ops|
  {
    if d < 0 then forall p: nat :: p < |ops| && OkPut(ops[p]) ==> !RealTimeBefore(ops[p], ops[g])
    else Erases(ops, d, g)
  }

  /** What sorts before the GET, and behind the DELETE, is no PUT. */
  lemma NoPutBetween(ops: seq<Op>, g: nat, d: int, i: nat)
    requires g < |ops| && i < |ops| && -1 <= d < |ops| && d != g && Uncovers(ops, g, d)
    requires i != g && i as int != d && Earlier(ops, Level(ops, g, d), i, g)
    requires d >= 0 ==> Earlier(ops, Level(ops, g, d), d, i)
    ensures !OkPut(ops[i])
  {
    var level := Level(ops, g, d);
    assert level(g) == 3 && level(i) <= 2;
  }

  lemma QuietBefore(ops: seq<Op>, g: nat, d: int, order: seq<nat>, k: nat)
    requires g < |ops| && -1 <= d < |ops| && d != g && Uncovers(ops, g, d)
    requires Schedules(ops, {}, order) && SortedBy(ops, Level(ops, g, d), order) && k < |order| && order[k] == g
    ensures Track(ops, order, k).Unwritten?
  {
    var from := 0;
    if 0 <= d {
      var e := DeleteComesFirst(ops, g, d, order, k);
      from := e + 1;
    }
    forall j | from <= j < k ensures !OkPut(ops[order[j]]) {
      assert Earlier(ops, Level(ops, g, d), order[j], order[k]);
      assert d >= 0 ==> Earlier(ops, Level(ops, g, d), order[from - 1], order[j]);
      NoPutBetween(ops, g, d, order[j]);
    }
    ErasedTracked(ops, order, from, k);
  }

  lemma DeleteComesFirst(ops: seq<Op>, g: nat, d: nat, order: seq<nat>, k: nat) returns (e: nat)
    requires g < |ops| && d < |ops| && d != g
    requires Schedules(ops, {}, order) && SortedBy(ops, Level(ops, g, d), order) && k < |order| && order[k] == g
    ensures e < k && order[e] == d
  {
    var level := Level(ops, g, d);
    assert level(g) == 3 && level(d) == 1;
    assert d in Below(|ops|) - {} && d in Elements(order);
    e :| 0 <= e < |order| && order[e] == d;
    assert !Earlier(ops, level, order[k], order[e]);
  }

  /** An exposed GET runs on an unwritten register in some schedule. */
  lemma ExposedSchedule(ops: seq<Op>, g: nat) returns (order: seq<nat>, k: nat)
    requires Orderly(ops) && Exposed(ops, g)
    ensures Schedules(ops, {}, order) && k < |order| && order[k] == g && Track(ops, order, k).Unwritten?
  {
    var d: int := -1;
    if e: nat :| Erases(ops, e, g) {
      d := e;
    }
    LevelRises(ops, g, d);
    order := SortedSchedule(ops, Level(ops, g, d));
    assert g in Below(|ops|) - {} && g in Elements(order);
    k :| 0 <= k < |order| && order[k] == g;
    QuietBefore(ops, g, d, order, k);
  }

  /** The history whose GET g alone returns data that no PUT wrote. */
  function Forged(ops: seq<Op>, g: nat): (r: seq<Op>)
    ensures SameShape(ops, r) && CarriesData(r)
  {
    seq(|ops|, i requires 0 <= i < |ops| => ops[i].(value := if i == g then "y" else "x"))
  }

  lemma {:induction false} TrackForged(ops: seq<Op>, g: nat, order: seq<nat>, k: nat)
    requires g < |ops| && OkGet(ops[g]) && Indices(ops, order) && k <= |order|
    ensures Track(Forged(ops, g), order, k).Unwritten? <==> Track(ops, order, k).Unwritten?
    ensures Track(Forged(ops, g), order, k).Unwritten? || Track(Forged(ops, g), order, k) == Holds("x")
  {
    if k > 0 {
      TrackForged(ops, g, order, k - 1);
    }
  }

  lemma {:induction false} ForgedExecutes(ops: seq<Op>, g: nat, order: seq<nat>, at: nat, k: nat)
    requires g < |ops| && OkGet(ops[g]) && Indices(ops, order) && Distinct(order) && k <= |order|
    requires at < |order| && order[at] == g && Track(ops, order, at).Unwritten?
    requires forall i :: 0 <= i < |ops| && ops[i].ok ==> !ops[i].kind.Other?
    ensures Executes(Forged(ops, g), order[k..], Track(Forged(ops, g), order, k))
    decreases |order| - k
  {
    if k < |order| {
      var h := Forged(ops, g);
      TrackForged(ops, g, order, k);
      assert order[k..][0] == order[k] && order[k..][1..] == order[k + 1..];
      assert order[k] == g ==> k == at;
      var next := Linearize(h[order[k]], Track(h, order, k));
      assert next == Legal(Track(h, order, k + 1));
      ForgedExecutes(ops, g, order, at, k + 1);
    }
  }

  lemma {:induction false} ForgedNeverRead(ops: seq<Op>, g: nat, order: seq<nat>, reg: Register)
    requires g < |ops| && OkGet(ops[g]) && Indices(ops, order) && g in order
    requires reg.Unwritten? || reg == Holds("x")
    ensures !ExecutesAsDocumented(Forged(ops, g), order, reg)
    decreases |order|
  {
    var op := Forged(ops, g)[order[0]];
    if order[0] != g && Documented(op, reg).Legal? {
      ForgedNeverRead(ops, g, order[1..], Documented(op, reg).reg);
    }
  }

  /** With an exposed GET the checker passes a history of the same shape that is not
      linearizable as documented. */
  lemma MissedViolation(ops: seq<Op>, g: nat)
    requires Orderly(ops) && Exposed(ops, g) && forall i :: 0 <= i < |ops| && ops[i].ok ==> !ops[i].kind.Other?
    ensures Linearizable(Forged(ops, g)) && !LinearizableAsDocumented(Forged(ops, g))
  {
    var h := Forged(ops, g);
    var order, at := ExposedSchedule(ops, g);
    ForgedExecutes(ops, g, order, at, 0);
    assert order[0..] == order;
    assert Completes(h, {}, Unwritten, order);
    forall o: seq<nat> | Schedules(h, {}, o) ensures !ExecutesAsDocumented(h, o, Unwritten) {
      assert g in Below(|h|) - {} && g in Elements(o);
      ForgedNeverRead(ops, g, o, Unwritten);
    }
  }

  // ---------------------------------------------------------------- exactly when

  /** The checker decides the documented register on every history of this shape with data. */
  ghost predicate Decided(ops: seq<Op>) {
    forall h :: SameShape(ops, h) && CarriesData(h) ==> (Linearizable(h) <==> LinearizableAsDocumented(h))
  }

  /** No history of this shape has an order at all: two operations must precede each other, or
      one has an unknown kind. */
  ghost predicate Hopeless(ops: seq<Op>) {
    || (exists i, j :: 0 <= i < |ops| && 0 <= j < |ops| && i != j && RealTimeBefore(ops[i], ops[j]) && RealTimeBefore(ops[j], ops[i]))
    || exists i :: 0 <= i < |ops| && ops[i].ok && ops[i].kind.Other?
  }

  lemma HopelessNeverPasses(ops: seq<Op>)
    requires Hopeless(ops)
    ensures !Linearizable(ops) && !LinearizableAsDocumented(ops)
  {
    if i: nat :| i < |ops| && ops[i].ok && ops[i].kind.Other? {
      forall order: seq<nat> | Schedules(ops, {}, order)
        ensures !Executes(ops, order, Unwritten) && !ExecutesAsDocumented(ops, order, Unwritten)
      {
        assert i in Below(|ops|) - {} && i in Elements(order);
        UnknownKind(ops, order, i, Unwritten);
      }
    } else {
      var i: nat, j: nat :| i < |ops| && j < |ops| && i != j && RealTimeBefore(ops[i], ops[j]) && RealTimeBefore(ops[j], ops[i]);
      forall order: seq<nat> ensures !Schedules(ops, {}, order) {
        if Indices(ops, order) && Elements(order) == Below(|ops|) - {} {
          NoMutualOrder(ops, order, i, j);
        }
      }
    }
  }

  lemma NoMutualOrder(ops: seq<Op>, order: seq<nat>, i: nat, j: nat)
    requires i < |ops| && j < |ops| && i != j && RealTimeBefore(ops[i], ops[j]) && RealTimeBefore(ops[j], ops[i])
    requires Indices(ops, order) && Elements(order) == Below(|ops|) - {}
    ensures !RespectsRealTime(ops, order)
  {
    assert i in Elements(order) && j in Elements(order);
    var a :| 0 <= a < |order| && order[a] == i;
    var b :| 0 <= b < |order| && order[b] == j;
    assert a < b ==> RealTimeBefore(ops[order[b]], ops[order[a]]);
    assert b < a ==> RealTimeBefore(ops[order[a]], ops[order[b]]);
  }

  lemma {:induction false} UnknownKind(ops: seq<Op>, order: seq<nat>, i: nat, reg: Register)
    requires Indices(ops, order) && i in order && ops[i].ok && ops[i].kind.Other?
    ensures !Executes(ops, order, reg) && !ExecutesAsDocumented(ops, order, reg)
    decreases |order|
  {
    if order[0] != i {
      if Linearize(ops[order[0]], reg).Legal? {
        UnknownKind(ops, order[1..], i, Linearize(ops[order[0]], reg).reg);
      }
      if Documented(ops[order[0]], reg).Legal? {
        UnknownKind(ops, order[1..], i, Documented(ops[order[0]], reg).reg);
      }
    }
  }

  /** On histories whose intervals run forward the checker decides the documented register for
      all data exactly when no successful GET is exposed, or nothing passes anyway. */
  lemma ExactlyWhenCovered(ops: seq<Op>)
    requires forall i :: 0 <= i < |ops| ==> ops[i].start <= ops[i].end
    ensures Decided(ops) <==> Hopeless(ops) || forall g :: !Exposed(ops, g)
  {
    if Hopeless(ops) || forall g :: !Exposed(ops, g) {
      forall h | SameShape(ops, h) && CarriesData(h) ensures Linearizable(h) <==> LinearizableAsDocumented(h) {
        SameCondition(ops, h);
        if Hopeless(h) {
          HopelessNeverPasses(h);
        } else {
          ExactWhenCovered(h);
        }
      }
    } else {
      var g :| Exposed(ops, g);
      MissedViolation(ops, g);
      assert SameShape(ops, Forged(ops, g));
    }
  }

  lemma SameCondition(a: seq<Op>, b: seq<Op>)
    requires SameShape(a, b)
    ensures Hopeless(a) <==> Hopeless(b)
    ensures forall g :: Exposed(a, g) <==> Exposed(b, g)
  {
    forall g: nat ensures Exposed(a, g) <==> Exposed(b, g) {
      if g < |a| {
        assert forall d: nat :: Erases(a, d, g) <==> Erases(b, d, g);
      }
    }
  }

  // ---------------------------------------------------------------- operations without data

  /** A failed operation, or a PUT or GET without recorded data. */
  predicate Dataless(op: Op) {
    !op.ok || ((op.kind.Put? || op.kind.Get?) && op.value == "")
  }

  lemma {:induction false} ExecutesSkipping(ops: seq<Op>, a: seq<nat>, i: nat, b: seq<nat>, reg: Register)
    requires i < |ops| && Dataless(ops[i]) && Indices(ops, a) && Indices(ops, b)
    ensures Indices(ops, a + [i] + b) && Indices(ops, a + b)
    ensures Executes(ops, a + [i] + b, reg) <==> Executes(ops, a + b, reg)
    decreases |a|
  {
    if a == [] {
      assert a + [i] + b == [i] + b && a + b == b && ([i] + b)[1..] == b;
    } else {
      assert (a + [i] + b)[1..] == a[1..] + [i] + b && (a + b)[1..] == a[1..] + b;
      assert (a + [i] + b)[0] == a[0] && (a + b)[0] == a[0];
      var next := Linearize(ops[a[0]], reg);
      if next.Legal? {
        ExecutesSkipping(ops, a[1..], i, b, next.reg);
      }
    }
  }

  /** Where an operation fits into an order of the others: behind all that must precede it. */
  ghost predicate FitsAt(ops: seq<Op>, order: seq<nat>, i: nat, k: nat)
    requires Indices(ops, order) && i < |ops|
  {
    && k <= |order|
    && (forall j :: k <= j < |order| ==> !RealTimeBefore(ops[order[j]], ops[i]))
    && (forall j :: 0 <= j < k ==> !RealTimeBefore(ops[i], ops[order[j]]))
  }

  /** The least position with nothing behind it that must precede the operation. */
  lemma {:induction false} FirstFit(ops: seq<Op>, order: seq<nat>, i: nat, k: nat) returns (m: nat)
    requires Indices(ops, order) && i < |ops| && k <= |order|
    requires forall j :: k <= j < |order| ==> !RealTimeBefore(ops[order[j]], ops[i])
    ensures m <= k && forall j :: m <= j < |order| ==> !RealTimeBefore(ops[order[j]], ops[i])
    ensures m > 0 ==> RealTimeBefore(ops[order[m - 1]], ops[i])
  {
    if k == 0 || RealTimeBefore(ops[order[k - 1]], ops[i]) {
      m := k;
    } else {
      m := FirstFit(ops, order, i, k - 1);
    }
  }

  lemma Fitting(ops: seq<Op>, order: seq<nat>, i: nat) returns (m: nat)
    requires Orderly(ops) && Schedules(ops, {i}, order) && i < |ops|
    ensures FitsAt(ops, order, i, m)
  {
    m := FirstFit(ops, order, i, |order|);
    forall j | 0 <= j < m ensures !RealTimeBefore(ops[i], ops[order[j]]) {
      var last := order[m - 1];
      assert last in Elements(order) && order[j] in Elements(order) && last != i && order[j] != i;
      assert j < m - 1 ==> !RealTimeBefore(ops[last], ops[order[j]]);
    }
  }

  lemma InsertSchedules(ops: seq<Op>, order: seq<nat>, i: nat, k: nat)
    requires Schedules(ops, {i}, order) && i < |ops| && FitsAt(ops, order, i, k)
    ensures Schedules(ops, {}, order[..k] + [i] + order[k..])
  {
    var all := order[..k] + [i] + order[k..];
    forall a | 0 <= a < |all| ensures all[a] == if a < k then order[a] else if a == k then i else order[a - 1] {}
    assert i !in order by {
      assert i !in Elements(order);
    }
    assert Elements(all) == Below(|ops|) - {} by {
      assert Elements(all) == Elements(order) + {i} by {
        assert order == order[..k] + order[k..];
      }
    }
  }

  lemma RemoveSchedules(ops: seq<Op>, a: seq<nat>, i: nat, b: seq<nat>)
    requires Schedules(ops, {}, a + [i] + b)
    ensures Schedules(ops, {i}, a + b)
  {
    var all, rest := a + [i] + b, a + b;
    forall j | 0 <= j < |rest| ensures rest[j] == all[if j < |a| then j else j + 1] {}
    assert all[|a|] == i;
    assert Elements(rest) == Below(|ops|) - {i} by {
      assert Elements(all) == Elements(rest) + {i};
      assert i !in rest;
    }
  }

  lemma LeaveOut(ops: seq<Op>, i: nat, order: seq<nat>, k: nat)
    requires i < |ops| && Dataless(ops[i]) && Completes(ops, {}, Unwritten, order) && k < |order| && order[k] == i
    ensures Completes(ops, {i}, Unwritten, order[..k] + order[k + 1..])
  {
    var a: seq<nat>, b: seq<nat> := order[..k], order[k + 1..];
    assert order == a + [i] + b;
    RemoveSchedules(ops, a, i, b);
    ExecutesSkipping(ops, a, i, b, Unwritten);
  }

  lemma PutIn(ops: seq<Op>, i: nat, order: seq<nat>, k: nat)
    requires i < |ops| && Dataless(ops[i]) && Completes(ops, {i}, Unwritten, order) && FitsAt(ops, order, i, k)
    ensures Completes(ops, {}, Unwritten, order[..k] + [i] + order[k..])
  {
    InsertSchedules(ops, order, i, k);
    assert order[..k] + order[k..] == order;
    ExecutesSkipping(ops, order[..k], i, order[k..], Unwritten);
  }

  /** Leaving out an operation without data changes no verdict: a failed one, a PUT that recorded
      none, which keeps the register, or a GET that recorded none. */
  lemma DatalessIsFree(ops: seq<Op>, i: nat)
    requires Orderly(ops) && i < |ops| && Dataless(ops[i])
    ensures Linearizable(ops) <==> Extendable(ops, Frame({i}, Unwritten))
  {
    if Linearizable(ops) {
      var order: seq<nat> :| Completes(ops, {}, Unwritten, order);
      assert i in Below(|ops|) - {} && i in Elements(order);
      var k: nat :| k < |order| && order[k] == i;
      LeaveOut(ops, i, order, k);
    }
    if Extendable(ops, Frame({i}, Unwritten)) {
      var order: seq<nat> :| Completes(ops, {i}, Unwritten, order);
      var k := Fitting(ops, order, i);
      PutIn(ops, i, order, k);
    }
  }

  // ---------------------------------------------------------------- real time

  /** Operations that meet in one instant are ordered: after PUT x and PUT y back to back, a GET
      of x that starts when the second ends never passes. */
  lemma BackToBackIsOrdered(t: int, u: int, v: int, w: int, x: string, y: string)
    requires t < u < v < w && x != "" && y != "" && x != y
    ensures !Linearizable([Op(t, u, Put, x, true), Op(u, v, Put, y, true), Op(v, w, Get, x, true)])
  {
    var ops := [Op(t, u, Put, x, true), Op(u, v, Put, y, true), Op(v, w, Get, x, true)];
    forall order: seq<nat> | Schedules(ops, {}, order) ensures !Executes(ops, order, Unwritten) {
      OnlyOrder(ops, order);
      assert order[1..] == [1, 2] && order[1..][1..] == [2];
      assert !Executes(ops, [2], Holds(y));
      assert !Executes(ops, [1, 2], Holds(x));
    }
  }

  lemma OnlyOrder(ops: seq<Op>, order: seq<nat>)
    requires |ops| == 3 && Schedules(ops, {}, order)
    requires RealTimeBefore(ops[0], ops[1]) && RealTimeBefore(ops[1], ops[2]) && RealTimeBefore(ops[0], ops[2])
    ensures order == [0, 1, 2]
  {
    DistinctSize(order);
    BelowSize(3);
    assert Below(3) - {} == Below(3) && |order| == 3;
    var a := PositionOf(order, 0);
    var b := PositionOf(order, 1);
    var c := PositionOf(order, 2);
    assert a < b && b < c;
  }

  lemma PositionOf(order: seq<nat>, i: nat) returns (k: nat)
    requires Elements(order) == Below(3) && i < 3
    ensures k < |order| && order[k] == i
  {
    assert i in Elements(order);
    k :| 0 <= k < |order| && order[k] == i;
  }
}
