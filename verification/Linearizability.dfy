/** The Wing-Gong checker of tests/linearizability/check.py for one register. */
module Linearizability {
  import opened Sets

  datatype Kind = Put | Get | Delete | Other

  datatype Op = Op(start: int, end: int, kind: Kind, value: string, ok: bool)

  datatype Register = Unwritten | Holds(value: string)

  datatype Outcome = Illegal | Legal(reg: Register)

  predicate RealTimeBefore(a: Op, b: Op) {
    a.end <= b.start
  }

  /** The register rules the checker applies when it linearizes `op` at value `reg`. */
  function Linearize(op: Op, reg: Register): Outcome {
    if !op.ok then Legal(reg)
    else match op.kind
      case Put => Legal(if op.value != "" then Holds(op.value) else reg)
      case Delete => Legal(Unwritten)
      case Get =>
        if op.value != "" && reg.Holds? && op.value != reg.value then Illegal else Legal(reg)
      case Other => Illegal
  }

  // ---------------------------------------------------------------- specification

  ghost predicate Indices(ops: seq<Op>, order: seq<nat>) {
    forall k :: 0 <= k < |order| ==> order[k] < |ops|
  }

  /** Executing the operations in the given order never breaks a register rule. */
  ghost predicate Executes(ops: seq<Op>, order: seq<nat>, reg: Register)
    requires Indices(ops, order)
  {
    order == [] ||
    (var first := Linearize(ops[order[0]], reg);
     first.Legal? && Executes(ops, order[1..], first.reg))
  }

  /** No operation comes after one that it must precede in real time. */
  ghost predicate RespectsRealTime(ops: seq<Op>, order: seq<nat>)
    requires Indices(ops, order)
  {
    forall a, b :: 0 <= a < b < |order| ==> !RealTimeBefore(ops[order[b]], ops[order[a]])
  }

  /** `order` names every operation outside `done` exactly once, compatibly with real time. */
  ghost predicate Schedules(ops: seq<Op>, done: set<nat>, order: seq<nat>) {
    && Distinct(order)
    && Elements(order) == Below(|ops|) - done
    && Indices(ops, order)
    && RespectsRealTime(ops, order)
  }

  /** `order` also runs legally from value `reg`. */
  ghost predicate Completes(ops: seq<Op>, done: set<nat>, reg: Register, order: seq<nat>) {
    Schedules(ops, done, order) && Executes(ops, order, reg)
  }

  ghost predicate Linearizable(ops: seq<Op>) {
    Extendable(ops, Frame({}, Unwritten))
  }

  // ---------------------------------------------------------------- search

  datatype Frame = Frame(done: set<nat>, reg: Register)

  ghost predicate Extendable(ops: seq<Op>, f: Frame) {
    exists order :: Completes(ops, f.done, f.reg, order)
  }

  ghost predicate SomeExtendable(ops: seq<Op>, stack: seq<Frame>) {
    exists f <- stack :: Extendable(ops, f)
  }

  ghost predicate IsCandidate(ops: seq<Op>, done: set<nat>, i: nat) {
    && i < |ops| && i !in done
    && forall j: nat :: j < |ops| && j != i && j !in done ==> !RealTimeBefore(ops[j], ops[i])
  }

  /** The frames pushed for the candidates, in push order. */
  ghost function Pushed(ops: seq<Op>, f: Frame, candidates: seq<nat>): seq<Frame>
    requires Indices(ops, candidates)
  {
    if candidates == [] then []
    else
      var init, i := candidates[..|candidates| - 1], candidates[|candidates| - 1];
      var next := Linearize(ops[i], f.reg);
      Pushed(ops, f, init) + if next.Legal? then [Frame(f.done + {i}, next.reg)] else []
  }

  lemma {:induction false} PushedMembers(ops: seq<Op>, f: Frame, candidates: seq<nat>)
    requires Indices(ops, candidates)
    ensures forall g :: g in Pushed(ops, f, candidates) <==>
      exists i <- candidates :: Linearize(ops[i], f.reg).Legal? && g == Frame(f.done + {i}, Linearize(ops[i], f.reg).reg)
    ensures |Pushed(ops, f, candidates)| <= |candidates|
  {
    if candidates != [] {
      var init, i := candidates[..|candidates| - 1], candidates[|candidates| - 1];
      PushedMembers(ops, f, init);
      assert candidates == init + [i];
    }
  }

  /** Prepending a legal candidate to a completion of the child completes the parent. */
  lemma ChildToParent(ops: seq<Op>, f: Frame, i: nat, order: seq<nat>)
    requires f.done <= Below(|ops|) && IsCandidate(ops, f.done, i)
    requires Linearize(ops[i], f.reg).Legal?
    requires Completes(ops, f.done + {i}, Linearize(ops[i], f.reg).reg, order)
    ensures Completes(ops, f.done, f.reg, [i] + order)
  {
    var full := [i] + order;
    assert Elements(full) == Elements(order) + {i};
    assert full[1..] == order;
    forall a, b | 0 <= a < b < |full| ensures full[a] != full[b] && !RealTimeBefore(ops[full[b]], ops[full[a]]) {
      assert full[b] == order[b - 1] && order[b - 1] in Elements(order);
    }
  }

  /** The head of a completion of the parent is a candidate; the tail completes its child. */
  lemma ParentToChild(ops: seq<Op>, f: Frame, order: seq<nat>)
    requires f.done < Below(|ops|) && Completes(ops, f.done, f.reg, order)
    ensures order != [] && IsCandidate(ops, f.done, order[0]) && Linearize(ops[order[0]], f.reg).Legal?
    ensures Completes(ops, f.done + {order[0]}, Linearize(ops[order[0]], f.reg).reg, order[1..])
  {
    var missing :| missing in Below(|ops|) && missing !in f.done;
    assert missing in Elements(order);
    var i, rest := order[0], order[1..];
    assert i in Elements(order);
    assert Elements(rest) == Elements(order) - {i} by {
      forall x | x in Elements(order) && x != i ensures x in rest {
        var k :| 0 <= k < |order| && order[k] == x;
        assert rest[k - 1] == x;
      }
    }
    forall j: nat | j < |ops| && j != i && j !in f.done ensures !RealTimeBefore(ops[j], ops[i]) {
      assert j in Below(|ops|);
      assert j in Elements(order);
      var k :| 0 <= k < |order| && order[k] == j;
    }
  }

  /** One round of the search: a frame can be completed exactly when one of the frames
      pushed for it can. */
  lemma ExpandFrame(ops: seq<Op>, f: Frame, candidates: seq<nat>)
    requires f.done < Below(|ops|)
    requires Indices(ops, candidates)
    requires forall i: nat :: i in candidates <==> IsCandidate(ops, f.done, i)
    ensures Extendable(ops, f) <==> SomeExtendable(ops, Pushed(ops, f, candidates))
  {
    PushedMembers(ops, f, candidates);
    if Extendable(ops, f) {
      var order :| Completes(ops, f.done, f.reg, order);
      ParentToChild(ops, f, order);
      var i := order[0];
      var child := Frame(f.done + {i}, Linearize(ops[i], f.reg).reg);
      assert child in Pushed(ops, f, candidates);
      assert Extendable(ops, child);
    }
    if SomeExtendable(ops, Pushed(ops, f, candidates)) {
      var g :| g in Pushed(ops, f, candidates) && Extendable(ops, g);
      var i :| i in candidates && Linearize(ops[i], f.reg).Legal? && g == Frame(f.done + {i}, Linearize(ops[i], f.reg).reg);
      var order :| Completes(ops, g.done, g.reg, order);
      ChildToParent(ops, f, i, order);
    }
  }

  lemma FullFrameExtendable(ops: seq<Op>, f: Frame)
    requires f.done <= Below(|ops|) && |f.done| == |ops|
    ensures f.done == Below(|ops|) && Extendable(ops, f)
  {
    BelowSize(|ops|);
    SubsetSize(f.done, Below(|ops|));
    assert Completes(ops, f.done, f.reg, []);
  }

  // ---------------------------------------------------------------- termination measure

  /** Bound on the search rounds below a frame with `left` operations to go. */
  ghost function Rounds(left: nat): nat {
    if left == 0 then 1 else 1 + left * Rounds(left - 1)
  }

  ghost function Measure(n: nat, stack: seq<Frame>): nat {
    if stack == [] then 0
    else Measure(n, stack[..|stack| - 1]) + Rounds(Left(n, stack[|stack| - 1]))
  }

  ghost function Left(n: nat, f: Frame): nat {
    if |f.done| <= n then n - |f.done| else 0
  }

  lemma {:induction false} MeasureConcat(n: nat, a: seq<Frame>, b: seq<Frame>)
    ensures Measure(n, a + b) == Measure(n, a) + Measure(n, b)
  {
    if b == [] {
      assert a + b == a;
    } else {
      assert (a + b)[..|a + b| - 1] == a + b[..|b| - 1];
      MeasureConcat(n, a, b[..|b| - 1]);
    }
  }

  lemma OneMore(a: nat, r: nat)
    ensures a * r + r == (a + 1) * r
  {}

  lemma {:induction false} MeasureUniform(n: nat, stack: seq<Frame>, left: nat)
    requires forall f <- stack :: Left(n, f) == left
    ensures Measure(n, stack) == |stack| * Rounds(left)
  {
    if stack != [] {
      var init := stack[..|stack| - 1];
      MeasureUniform(n, init, left);
      assert Left(n, stack[|stack| - 1]) == left;
      OneMore(|init|, Rounds(left));
    }
  }

  lemma PushedLeft(ops: seq<Op>, f: Frame, candidates: seq<nat>)
    requires |f.done| < |ops| && Indices(ops, candidates)
    requires forall i <- candidates :: i !in f.done
    ensures forall g <- Pushed(ops, f, candidates) :: Left(|ops|, g) == |ops| - |f.done| - 1
  {
    PushedMembers(ops, f, candidates);
  }

  lemma CandidateCount(ops: seq<Op>, done: set<nat>, candidates: seq<nat>)
    requires done <= Below(|ops|) && Distinct(candidates) && Indices(ops, candidates)
    requires forall i <- candidates :: i !in done
    ensures |candidates| <= |ops| - |done|
  {
    DistinctSize(candidates);
    BelowSize(|ops|);
    SubsetSize(Elements(candidates), Below(|ops|) - done);
  }

  lemma ScaleLeq(a: nat, b: nat, r: nat)
    requires a <= b
    ensures a * r <= b * r
  {}

  /** The frames pushed for a frame together weigh less than the frame popped. */
  lemma ExpansionShrinks(ops: seq<Op>, f: Frame, candidates: seq<nat>)
    requires f.done <= Below(|ops|) && |f.done| < |ops| && Distinct(candidates)
    requires Indices(ops, candidates)
    requires forall i <- candidates :: i !in f.done
    ensures Measure(|ops|, Pushed(ops, f, candidates)) < Rounds(Left(|ops|, f))
  {
    var pushed, left := Pushed(ops, f, candidates), |ops| - |f.done|;
    PushedLeft(ops, f, candidates);
    MeasureUniform(|ops|, pushed, left - 1);
    PushedMembers(ops, f, candidates);
    CandidateCount(ops, f.done, candidates);
    ScaleLeq(|pushed|, left, Rounds(left - 1));
  }

  /** One round of the loop keeps its invariant and shrinks the measure. */
  lemma RoundOfSearch(ops: seq<Op>, rest: seq<Frame>, f: Frame, candidates: seq<nat>)
    requires Framed(ops, rest) && f.done <= Below(|ops|) && |f.done| != |ops|
    requires Distinct(candidates) && Indices(ops, candidates)
    requires forall i: nat :: i in candidates <==> IsCandidate(ops, f.done, i)
    ensures Framed(ops, rest + Pushed(ops, f, candidates))
    ensures SomeExtendable(ops, rest + [f]) <==> SomeExtendable(ops, rest + Pushed(ops, f, candidates))
    ensures Measure(|ops|, rest + Pushed(ops, f, candidates)) < Measure(|ops|, rest + [f])
  {
    BelowSize(|ops|);
    SubsetSize(f.done, Below(|ops|));
    var pushed := Pushed(ops, f, candidates);
    PushedMembers(ops, f, candidates);
    assert f.done != Below(|ops|);
    ExpandFrame(ops, f, candidates);
    MeasureConcat(|ops|, rest, pushed);
    MeasureConcat(|ops|, rest, [f]);
    assert [f][..0] == [];
    ExpansionShrinks(ops, f, candidates);
    SplitExtendable(ops, rest, pushed);
    SplitExtendable(ops, rest, [f]);
  }

  lemma SplitExtendable(ops: seq<Op>, a: seq<Frame>, b: seq<Frame>)
    ensures SomeExtendable(ops, a + b) <==> SomeExtendable(ops, a) || SomeExtendable(ops, b)
  {
    assert forall f :: f in a + b <==> f in a || f in b;
  }

  // ---------------------------------------------------------------- the checker

  method Candidates(ops: seq<Op>, done: set<nat>) returns (result: seq<nat>)
    ensures Distinct(result) && Indices(ops, result)
    ensures forall i: nat :: i in result <==> IsCandidate(ops, done, i)
  {
    result := [];
    var i := 0;
    while i < |ops|
      invariant 0 <= i <= |ops|
      invariant Distinct(result) && Indices(ops, result)
      invariant forall k :: 0 <= k < |result| ==> result[k] < i
      invariant forall k: nat :: k in result <==> k < i && IsCandidate(ops, done, k)
    {
      if i !in done {
        var ok := true;
        var j := 0;
        while j < |ops| && ok
          invariant 0 <= j <= |ops|
          invariant ok ==> forall k: nat :: k < j && k != i && k !in done ==> !RealTimeBefore(ops[k], ops[i])
          invariant !ok ==> !IsCandidate(ops, done, i)
        {
          if j != i && j !in done && RealTimeBefore(ops[j], ops[i]) {
            ok := false;
          }
          j := j + 1;
        }
        if ok {
          result := result + [i];
        }
      }
      i := i + 1;
    }
  }

  ghost predicate Framed(ops: seq<Op>, stack: seq<Frame>) {
    forall f <- stack :: f.done <= Below(|ops|)
  }

  /** The depth-first search answers True exactly for the linearizable histories. */
  method IsLinearizableRegister(ops: seq<Op>) returns (answer: bool)
    ensures answer <==> Linearizable(ops)
  {
    var n := |ops|;
    if n == 0 {
      FullFrameExtendable(ops, Frame({}, Unwritten));
      return true;
    }
    var stack := [Frame({}, Unwritten)];
    while stack != []
      invariant Framed(ops, stack)
      invariant Linearizable(ops) <==> SomeExtendable(ops, stack)
      decreases Measure(n, stack)
    {
      var f, rest := stack[|stack| - 1], stack[..|stack| - 1];
      assert stack == rest + [f] && f in stack;
      if |f.done| == n {
        FullFrameExtendable(ops, f);
        return true;
      }
      stack := rest;
      var candidates := Candidates(ops, f.done);
      var k := 0;
      while k < |candidates|
        invariant 0 <= k <= |candidates|
        invariant stack == rest + Pushed(ops, f, candidates[..k])
      {
        var next := Linearize(ops[candidates[k]], f.reg);
        assert candidates[..k + 1][..k] == candidates[..k];
        if next.Legal? {
          stack := stack + [Frame(f.done + {candidates[k]}, next.reg)];
        }
        k := k + 1;
      }
      assert candidates[..k] == candidates;
      RoundOfSearch(ops, rest, f, candidates);
    }
    return false;
  }
}
