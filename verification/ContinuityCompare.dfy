/** The two memoised comparisons of the continuity gate, and the assertion evaluator on top of them.

    Both comparisons walk two heap values together, remember the pairs of containers already met, and share
    one budget. A memo hit answers "yes" before the pair has been compared, so what a true answer means is
    coinductive: the remembered pairs form a relation that every pair in it respects. `Holds` is the largest
    such relation; on validated (hence acyclic) values it is equality of the unfolded trees. */
module ContinuityCompare {
  import opened Wrappers
  import opened JsonHeap

  datatype Mode = Equality | Preservation

  type Pairs = set<(Id, Id)>

  /** Python truth of a value. */
  predicate Truthy(h: Heap, v: Value)
    requires InHeap(h, v)
  {
    match v
    case Null => false
    case Bool(b) => b
    case Int(n) => n != 0
    case Float(f) => f.Finite? ==> f.value != 0.0
    case Str(t) => t != []
    case Foreign(_) => true
    case Ref(id) => h[id].Degree() > 0
  }

  predicate SameScalarType(a: Value, b: Value)
    requires !a.Ref? && !b.Ref?
  {
    match a
    case Null => b.Null?
    case Bool(_) => b.Bool?
    case Int(_) => b.Int?
    case Float(_) => b.Float?
    case Str(_) => b.Str?
    case Foreign(t) => b == Foreign(t)
  }

  predicate ScalarsAgree(mode: Mode, h: Heap, a: Value, b: Value)
    requires !a.Ref? && !b.Ref?
  {
    && SameScalarType(a, b)
    && match mode
       case Equality => a == b && a != Float(NaN)
       case Preservation => Truthy(h, b)
  }

  predicate Related(mode: Mode, h: Heap, r: Pairs, a: Value, b: Value) {
    if a.Ref? && b.Ref? then (a.id, b.id) in r
    else !a.Ref? && !b.Ref? && ScalarsAgree(mode, h, a, b)
  }

  /** What is compared before any child: key sets, lengths, or (for preserved lists) non-emptiness. */
  predicate SameShape(mode: Mode, x: Container, y: Container) {
    match (x, y)
    case (Dict(_, left), Dict(_, right)) => if mode.Equality? then left.Keys == right.Keys else left.Keys <= right.Keys
    case (List(left), List(right)) => if mode.Equality? then |left| == |right| else right != []
    case _ => false
  }

  /** Containers `x` and `y` agree one level deep, their children being compared through `r`. */
  ghost predicate Matches(mode: Mode, h: Heap, r: Pairs, x: Container, y: Container) {
    && SameShape(mode, x, y)
    && (x.Dict? ==> forall k :: k in x.entries ==> Related(mode, h, r, x.entries[k], y.entries[k]))
    && (x.List? && mode.Equality? ==> forall i :: 0 <= i < |x.items| ==> Related(mode, h, r, x.items[i], y.items[i]))
  }

  ghost predicate Consistent(mode: Mode, h: Heap, r: Pairs) {
    forall x, y :: (x, y) in r ==> x in h && y in h && Matches(mode, h, r, h[x], h[y])
  }

  ghost predicate Holds(mode: Mode, h: Heap, a: Value, b: Value) {
    exists r: Pairs :: Consistent(mode, h, r) && Related(mode, h, r, a, b)
  }

  lemma MatchesMonotone(mode: Mode, h: Heap, r: Pairs, s: Pairs, x: Container, y: Container)
    requires r <= s && Matches(mode, h, r, x, y)
    ensures Matches(mode, h, s, x, y)
  {
  }

  /** One level of the comparison, with the children compared by `Holds` itself. */
  ghost predicate Unrolled(mode: Mode, h: Heap, x: Container, y: Container) {
    && SameShape(mode, x, y)
    && (x.Dict? ==> forall k :: k in x.entries ==> Holds(mode, h, x.entries[k], y.entries[k]))
    && (x.List? && mode.Equality? ==> forall i :: 0 <= i < |x.items| ==> Holds(mode, h, x.items[i], y.items[i]))
  }

  lemma HoldsUnrolls(mode: Mode, h: Heap, a: Value, b: Value)
    requires a.Ref? && b.Ref?
    ensures Holds(mode, h, a, b) ==> a.id in h && b.id in h && Unrolled(mode, h, h[a.id], h[b.id])
  {
    if Holds(mode, h, a, b) {
      var r :| Consistent(mode, h, r) && Related(mode, h, r, a, b);
      assert Matches(mode, h, r, h[a.id], h[b.id]);
    }
  }

  // ----- the budget, the memo and the two comparisons

  class ComparisonBudget {
    var remaining: int

    constructor (remaining: int)
      ensures this.remaining == remaining
    {
      this.remaining := remaining;
    }

    /** False stands for the exception raised on an exhausted budget. */
    method Consume(count: nat) returns (ok: bool)
      modifies this
      ensures remaining == old(remaining) - count
      ensures ok <==> remaining >= 0
    {
      remaining := remaining - count;
      ok := remaining >= 0;
    }
  }

  /** What comparing one pair of containers consumes when they agree, apart from the pairs below it: one for each
      child, and for dictionaries the size of both. */
  function PairWeight(mode: Mode, h: Heap, p: (Id, Id)): nat {
    if p.0 !in h || p.1 !in h then 0
    else if h[p.0].List? then if mode.Equality? then |h[p.0].items| else 0
    else |h[p.0].keys| + if h[p.1].Dict? then |h[p.0].entries| + |h[p.1].entries| else 0
  }

  ghost function PairsWeight(mode: Mode, h: Heap, s: Pairs): nat {
    if s == {} then 0
    else
      var p :| p in s;
      PairWeight(mode, h, p) + PairsWeight(mode, h, s - {p})
  }

  lemma {:induction false} PairsWeightRemove(mode: Mode, h: Heap, s: Pairs, p: (Id, Id))
    requires p in s
    ensures PairsWeight(mode, h, s) == PairWeight(mode, h, p) + PairsWeight(mode, h, s - {p})
    decreases |s|
  {
    var q :| q in s && PairsWeight(mode, h, s) == PairWeight(mode, h, q) + PairsWeight(mode, h, s - {q});
    if p != q {
      PairsWeightRemove(mode, h, s - {q}, p);
      PairsWeightRemove(mode, h, s - {p}, q);
      assert s - {q} - {p} == s - {p} - {q};
    }
  }

  lemma {:induction false} PairsWeightAdds(mode: Mode, h: Heap, s: Pairs, t: Pairs)
    requires s <= t
    ensures PairsWeight(mode, h, t) == PairsWeight(mode, h, s) + PairsWeight(mode, h, t - s)
    decreases |t|
  {
    if t - s == {} {
      assert s == t;
    } else {
      var p :| p in t - s;
      PairsWeightRemove(mode, h, t, p);
      PairsWeightRemove(mode, h, t - s, p);
      PairsWeightAdds(mode, h, s, t - {p});
      assert t - {p} - s == t - s - {p};
    }
  }

  /** No single comparison can consume more than this, however the graph shares or loops. */
  ghost function ComparisonBound(h: Heap): nat {
    1 + PairsWeight(Equality, h, HeapPairs(h))
  }

  ghost function HeapPairs(h: Heap): Pairs {
    set x, y | x in h && y in h :: (x, y)
  }

  lemma {:induction false} PreservationWeighsLess(h: Heap, s: Pairs)
    ensures PairsWeight(Preservation, h, s) <= PairsWeight(Equality, h, s)
    decreases |s|
  {
    if s != {} {
      var p :| p in s;
      PairsWeightRemove(Preservation, h, s, p);
      PairsWeightRemove(Equality, h, s, p);
      PreservationWeighsLess(h, s - {p});
    }
  }

  lemma NewPairsWeight(mode: Mode, h: Heap, before: Pairs, pair: (Id, Id), now: Pairs)
    requires pair !in before && before + {pair} <= now
    ensures PairsWeight(mode, h, now - before)
         == PairWeight(mode, h, pair) + PairsWeight(mode, h, now - (before + {pair}))
  {
    PairsWeightRemove(mode, h, now - before, pair);
    assert now - before - {pair} == now - (before + {pair});
  }

  class SeenPairs {
    var pairs: Pairs

    constructor ()
      ensures pairs == {}
    {
      pairs := {};
    }
  }

  datatype Outcome = Verdict(agree: bool) | BudgetExceeded

  /** What a run has added to the memo is closed: each new pair matches through the memo. */
  ghost predicate ClosedSince(mode: Mode, h: Heap, before: Pairs, now: Pairs) {
    && before <= now
    && forall x, y :: (x, y) in now && (x, y) !in before ==> x in h && y in h && Matches(mode, h, now, h[x], h[y])
  }

  lemma ClosedSinceChains(mode: Mode, h: Heap, a: Pairs, b: Pairs, c: Pairs)
    requires ClosedSince(mode, h, a, b) && ClosedSince(mode, h, b, c)
    ensures ClosedSince(mode, h, a, c)
    ensures forall v, w :: Related(mode, h, b, v, w) ==> Related(mode, h, c, v, w)
  {
    forall x, y | (x, y) in c && (x, y) !in a ensures x in h && y in h && Matches(mode, h, c, h[x], h[y]) {
      if (x, y) in b {
        MatchesMonotone(mode, h, b, c, h[x], h[y]);
      }
    }
  }

  /** A pair remembered before its children were compared is matched once they all agree. */
  lemma ClosedSinceCloses(mode: Mode, h: Heap, before: Pairs, pair: (Id, Id), now: Pairs)
    requires ClosedSince(mode, h, before + {pair}, now)
    requires pair.0 in h && pair.1 in h && Matches(mode, h, now, h[pair.0], h[pair.1])
    ensures ClosedSince(mode, h, before, now) && Related(mode, h, now, Ref(pair.0), Ref(pair.1))
  {
  }

  /** The children handed to the recursive calls, in order. */
  function ChildPairs(mode: Mode, x: Container, y: Container): seq<(Value, Value)>
    requires x.WellFormed() && SameShape(mode, x, y)
  {
    if x.Dict? then seq(|x.keys|, i requires 0 <= i < |x.keys| => (x.entries[x.keys[i]], y.entries[x.keys[i]]))
    else if mode.Equality? then seq(|x.items|, i requires 0 <= i < |x.items| => (x.items[i], y.items[i]))
    else []
  }

  lemma ChildPairsDecide(mode: Mode, h: Heap, x: Container, y: Container)
    requires x.WellFormed() && SameShape(mode, x, y)
    ensures forall r :: Matches(mode, h, r, x, y) <==>
              forall i :: 0 <= i < |ChildPairs(mode, x, y)| ==>
                Related(mode, h, r, ChildPairs(mode, x, y)[i].0, ChildPairs(mode, x, y)[i].1)
    ensures Unrolled(mode, h, x, y) ==>
              forall i :: 0 <= i < |ChildPairs(mode, x, y)| ==>
                Holds(mode, h, ChildPairs(mode, x, y)[i].0, ChildPairs(mode, x, y)[i].1)
  {
    hide Holds, Related;
    var pairs := ChildPairs(mode, x, y);
    forall r | forall i :: 0 <= i < |pairs| ==> Related(mode, h, r, pairs[i].0, pairs[i].1)
      ensures Matches(mode, h, r, x, y)
    {
      if x.Dict? {
        forall k | k in x.entries ensures Related(mode, h, r, x.entries[k], y.entries[k]) {
          var q :| 0 <= q < |x.keys| && x.keys[q] == k;
          assert pairs[q] == (x.entries[k], y.entries[k]);
        }
      } else if mode.Equality? {
        assert forall i :: 0 <= i < |x.items| ==> pairs[i] == (x.items[i], y.items[i]);
      }
    }
  }

  lemma ChildPairsInHeap(mode: Mode, h: Heap, x: Id, y: Id)
    requires Closed(h) && x in h && y in h && SameShape(mode, h[x], h[y])
    ensures forall i :: 0 <= i < |ChildPairs(mode, h[x], h[y])| ==>
              InHeap(h, ChildPairs(mode, h[x], h[y])[i].0) && InHeap(h, ChildPairs(mode, h[x], h[y])[i].1)
  {
    forall i | 0 <= i < |ChildPairs(mode, h[x], h[y])|
      ensures InHeap(h, ChildPairs(mode, h[x], h[y])[i].0) && InHeap(h, ChildPairs(mode, h[x], h[y])[i].1)
    {
      assert ChildPairs(mode, h[x], h[y])[i].0 == h[x].Child(i);
      if h[x].Dict? {
        EntryIsChild(h[y], h[x].keys[i]);
      } else {
        assert ChildPairs(mode, h[x], h[y])[i].1 == h[y].Child(i);
      }
    }
  }

  lemma EntryIsChild(c: Container, key: Key)
    requires c.WellFormed() && c.Dict? && key in c.entries
    ensures exists q :: 0 <= q < c.Degree() && c.Child(q) == c.entries[key]
  {
    var q :| 0 <= q < |c.keys| && c.keys[q] == key;
    assert c.Child(q) == c.entries[key];
  }

  method JsonEqual(h: Heap, left: Value, right: Value, seen: SeenPairs, budget: ComparisonBudget) returns (r: Outcome)
    requires Closed(h) && InHeap(h, left) && InHeap(h, right) && budget.remaining >= 0
    modifies seen, budget
    decreases budget.remaining, 0
    ensures r.Verdict? <==> 0 <= budget.remaining
    ensures budget.remaining < old(budget.remaining)
    ensures old(seen.pairs) <= seen.pairs <= old(seen.pairs) + HeapPairs(h)
    ensures old(budget.remaining) - budget.remaining <= 1 + PairsWeight(Equality, h, seen.pairs - old(seen.pairs))
    ensures r == Verdict(true) ==>
              old(budget.remaining) - budget.remaining == 1 + PairsWeight(Equality, h, seen.pairs - old(seen.pairs))
    ensures r == Verdict(true) ==> ClosedSince(Equality, h, old(seen.pairs), seen.pairs) &&
                                   Related(Equality, h, seen.pairs, left, right)
    ensures r == Verdict(false) ==> !Holds(Equality, h, left, right)
  {
    var paid := budget.Consume(1);
    if !paid {
      return BudgetExceeded;
    }
    if !left.Ref? || !right.Ref? {
      return Verdict(!left.Ref? && !right.Ref? && ScalarsAgree(Equality, h, left, right));
    }
    var x, y, pair := h[left.id], h[right.id], (left.id, right.id);
    HoldsUnrolls(Equality, h, left, right);
    assert ClosedSince(Equality, h, seen.pairs, seen.pairs);
    hide Holds, Consistent, ClosedSince, PairsWeight;
    if x.Dict? != y.Dict? {
      return Verdict(false);
    }
    if pair in seen.pairs {
      return Verdict(true);
    }
    seen.pairs := seen.pairs + {pair};
    NewPairsWeight(Equality, h, old(seen.pairs), pair, seen.pairs);
    if x.Dict? {
      paid := budget.Consume(|x.entries| + |y.entries|);
      if !paid {
        return BudgetExceeded;
      }
    }
    if !SameShape(Equality, x, y) {
      return Verdict(false);
    }
    var children := ChildPairs(Equality, x, y);
    ChildPairsDecide(Equality, h, x, y);
    ChildPairsInHeap(Equality, h, left.id, right.id);
    hide Matches, Unrolled, ChildPairs, SameShape, Closed, Related;
    r := AllAgree(Equality, h, children, seen, budget);
    NewPairsWeight(Equality, h, old(seen.pairs), pair, seen.pairs);
    if r == Verdict(true) {
      ClosedSinceCloses(Equality, h, old(seen.pairs), pair, seen.pairs);
    }
  }

  method PreservesNonEmptyStructure(h: Heap, baseline: Value, candidate: Value, seen: SeenPairs,
                                    budget: ComparisonBudget)
    returns (r: Outcome)
    requires Closed(h) && InHeap(h, baseline) && InHeap(h, candidate) && budget.remaining >= 0
    modifies seen, budget
    decreases budget.remaining, 0
    ensures r.Verdict? <==> 0 <= budget.remaining
    ensures budget.remaining < old(budget.remaining)
    ensures old(seen.pairs) <= seen.pairs <= old(seen.pairs) + HeapPairs(h)
    ensures old(budget.remaining) - budget.remaining <= 1 + PairsWeight(Preservation, h, seen.pairs - old(seen.pairs))
    ensures r == Verdict(true) ==>
              old(budget.remaining) - budget.remaining == 1 + PairsWeight(Preservation, h, seen.pairs - old(seen.pairs))
    ensures r == Verdict(true) ==> ClosedSince(Preservation, h, old(seen.pairs), seen.pairs) &&
                                   Related(Preservation, h, seen.pairs, baseline, candidate)
    ensures r == Verdict(false) ==> !Holds(Preservation, h, baseline, candidate)
  {
    var paid := budget.Consume(1);
    if !paid {
      return BudgetExceeded;
    }
    if !baseline.Ref? || !candidate.Ref? {
      return Verdict(!baseline.Ref? && !candidate.Ref? && SameScalarType(baseline, candidate) && Truthy(h, candidate));
    }
    var x, y, pair := h[baseline.id], h[candidate.id], (baseline.id, candidate.id);
    HoldsUnrolls(Preservation, h, baseline, candidate);
    assert ClosedSince(Preservation, h, seen.pairs, seen.pairs);
    hide Holds, Consistent, ClosedSince, PairsWeight;
    if x.Dict? != y.Dict? {
      return Verdict(false);
    }
    if pair in seen.pairs {
      return Verdict(true);
    }
    seen.pairs := seen.pairs + {pair};
    NewPairsWeight(Preservation, h, old(seen.pairs), pair, seen.pairs);
    if x.Dict? {
      paid := budget.Consume(|x.entries| + |y.entries|);
      if !paid {
        return BudgetExceeded;
      }
    }
    if !SameShape(Preservation, x, y) {
      return Verdict(false);
    }
    var children := ChildPairs(Preservation, x, y);
    ChildPairsDecide(Preservation, h, x, y);
    ChildPairsInHeap(Preservation, h, baseline.id, candidate.id);
    hide Matches, Unrolled, ChildPairs, SameShape, Closed, Related;
    r := AllAgree(Preservation, h, children, seen, budget);
    NewPairsWeight(Preservation, h, old(seen.pairs), pair, seen.pairs);
    if r == Verdict(true) {
      ClosedSinceCloses(Preservation, h, old(seen.pairs), pair, seen.pairs);
    }
  }

  /** The `all(...)` over the children: it stops at the first disagreement. */
  method AllAgree(mode: Mode, h: Heap, children: seq<(Value, Value)>, seen: SeenPairs, budget: ComparisonBudget)
    returns (r: Outcome)
    requires Closed(h) && budget.remaining >= 0
    requires forall i :: 0 <= i < |children| ==> InHeap(h, children[i].0) && InHeap(h, children[i].1)
    modifies seen, budget
    decreases budget.remaining, 1
    ensures r.Verdict? <==> 0 <= budget.remaining
    ensures budget.remaining <= old(budget.remaining)
    ensures old(seen.pairs) <= seen.pairs <= old(seen.pairs) + HeapPairs(h)
    ensures old(budget.remaining) - budget.remaining <= |children| + PairsWeight(mode, h, seen.pairs - old(seen.pairs))
    ensures r == Verdict(true) ==>
              old(budget.remaining) - budget.remaining
              == |children| + PairsWeight(mode, h, seen.pairs - old(seen.pairs))
    ensures r == Verdict(true) ==>
              && ClosedSince(mode, h, old(seen.pairs), seen.pairs)
              && forall i :: 0 <= i < |children| ==> Related(mode, h, seen.pairs, children[i].0, children[i].1)
    ensures r == Verdict(false) ==> exists i :: 0 <= i < |children| && !Holds(mode, h, children[i].0, children[i].1)
  {
    assert ClosedSince(mode, h, seen.pairs, seen.pairs);
    hide Closed, ClosedSince, Related, Holds, PairsWeight, HeapPairs;
    for i := 0 to |children|
      invariant 0 <= budget.remaining <= old(budget.remaining)
      invariant old(seen.pairs) <= seen.pairs <= old(seen.pairs) + HeapPairs(h)
      invariant old(budget.remaining) - budget.remaining == i + PairsWeight(mode, h, seen.pairs - old(seen.pairs))
      invariant ClosedSince(mode, h, old(seen.pairs), seen.pairs)
      invariant forall j :: 0 <= j < i ==> Related(mode, h, seen.pairs, children[j].0, children[j].1)
    {
      ghost var before := seen.pairs;
      if mode.Equality? {
        r := JsonEqual(h, children[i].0, children[i].1, seen, budget);
      } else {
        r := PreservesNonEmptyStructure(h, children[i].0, children[i].1, seen, budget);
      }
      PairsWeightAdds(mode, h, before - old(seen.pairs), seen.pairs - old(seen.pairs));
      assert (seen.pairs - old(seen.pairs)) - (before - old(seen.pairs)) == seen.pairs - before;
      if r != Verdict(true) {
        return;
      }
      ClosedSinceChains(mode, h, old(seen.pairs), before, seen.pairs);
    }
    r := Verdict(true);
  }

  // ----- what a true answer means on validated values

  datatype Tree = Leaf(scalar: Value) | Obj(fields: map<Key, Tree>) | Arr(items: seq<Tree>)

  lemma EntryValid(h: Heap, id: Id, key: Key, depth: nat, lim: Limits)
    requires Closed(h) && id in h && h[id].Dict? && key in h[id].entries && Valid(h, Ref(id), depth, lim)
    ensures InHeap(h, h[id].entries[key]) && Valid(h, h[id].entries[key], depth + 1, lim)
  {
    var q :| 0 <= q < |h[id].keys| && h[id].keys[q] == key;
    assert h[id].Child(q) == h[id].entries[key];
  }

  /** The value with all sharing unfolded and dictionary order forgotten. */
  ghost function Unfold(h: Heap, v: Value, depth: nat, lim: Limits): Tree
    requires Closed(h) && InHeap(h, v) && Valid(h, v, depth, lim)
    decreases lim.depth + 1 - depth
  {
    if !v.Ref? then Leaf(v)
    else
      match h[v.id]
      case Dict(keys, entries) =>
        Obj(map k | k in entries :: (EntryValid(h, v.id, k, depth, lim); Unfold(h, entries[k], depth + 1, lim)))
      case List(items) =>
        Arr(seq(|items|, i requires 0 <= i < |items| =>
          (assert h[v.id].Child(i) == items[i]; Unfold(h, items[i], depth + 1, lim))))
  }

  lemma UnfoldDict(h: Heap, id: Id, d: nat, lim: Limits)
    requires Closed(h) && id in h && h[id].Dict? && Valid(h, Ref(id), d, lim)
    ensures Unfold(h, Ref(id), d, lim).Obj? && Unfold(h, Ref(id), d, lim).fields.Keys == h[id].entries.Keys
    ensures forall k :: k in h[id].entries ==>
              InHeap(h, h[id].entries[k]) && Valid(h, h[id].entries[k], d + 1, lim) &&
              Unfold(h, Ref(id), d, lim).fields[k] == Unfold(h, h[id].entries[k], d + 1, lim)
  {
    forall k | k in h[id].entries ensures InHeap(h, h[id].entries[k]) && Valid(h, h[id].entries[k], d + 1, lim) {
      EntryValid(h, id, k, d, lim);
    }
  }

  lemma UnfoldList(h: Heap, id: Id, d: nat, lim: Limits)
    requires Closed(h) && id in h && h[id].List? && Valid(h, Ref(id), d, lim)
    ensures Unfold(h, Ref(id), d, lim).Arr? && |Unfold(h, Ref(id), d, lim).items| == |h[id].items|
    ensures forall i :: 0 <= i < |h[id].items| ==>
              InHeap(h, h[id].items[i]) && Valid(h, h[id].items[i], d + 1, lim) &&
              Unfold(h, Ref(id), d, lim).items[i] == Unfold(h, h[id].items[i], d + 1, lim)
  {
    forall i | 0 <= i < |h[id].items| ensures InHeap(h, h[id].items[i]) && Valid(h, h[id].items[i], d + 1, lim) {
      assert h[id].Child(i) == h[id].items[i];
    }
  }

  lemma {:induction false} HoldsMeansSameTree(h: Heap, a: Value, b: Value, d: nat, e: nat, lim: Limits)
    requires Closed(h) && InHeap(h, a) && InHeap(h, b) && Valid(h, a, d, lim) && Valid(h, b, e, lim)
    requires Holds(Equality, h, a, b)
    ensures Unfold(h, a, d, lim) == Unfold(h, b, e, lim)
    decreases lim.depth + 1 - d, 1
  {
    if a.Ref? && b.Ref? {
      HoldsUnrolls(Equality, h, a, b);
      assert a == Ref(a.id) && b == Ref(b.id);
      if h[a.id].Dict? {
        MatchingDictsUnfoldAlike(h, a.id, b.id, d, e, lim);
      } else {
        MatchingListsUnfoldAlike(h, a.id, b.id, d, e, lim);
      }
    }
  }

  lemma {:induction false} MatchingDictsUnfoldAlike(h: Heap, x: Id, y: Id, d: nat, e: nat, lim: Limits)
    requires Closed(h) && x in h && y in h && Valid(h, Ref(x), d, lim) && Valid(h, Ref(y), e, lim)
    requires h[x].Dict? && Unrolled(Equality, h, h[x], h[y])
    ensures Unfold(h, Ref(x), d, lim) == Unfold(h, Ref(y), e, lim)
    decreases lim.depth + 1 - d, 0
  {
    assert d <= lim.depth;
    UnfoldDict(h, x, d, lim);
    UnfoldDict(h, y, e, lim);
    hide Holds, Unfold, Valid;
    var t, t' := Unfold(h, Ref(x), d, lim), Unfold(h, Ref(y), e, lim);
    forall k | k in h[x].entries ensures k in h[y].entries && t.fields[k] == t'.fields[k] {
      HoldsMeansSameTree(h, h[x].entries[k], h[y].entries[k], d + 1, e + 1, lim);
    }
    assert t.fields == t'.fields;
  }

  lemma {:induction false} MatchingListsUnfoldAlike(h: Heap, x: Id, y: Id, d: nat, e: nat, lim: Limits)
    requires Closed(h) && x in h && y in h && Valid(h, Ref(x), d, lim) && Valid(h, Ref(y), e, lim)
    requires h[x].List? && Unrolled(Equality, h, h[x], h[y])
    ensures Unfold(h, Ref(x), d, lim) == Unfold(h, Ref(y), e, lim)
    decreases lim.depth + 1 - d, 0
  {
    assert d <= lim.depth;
    UnfoldList(h, x, d, lim);
    UnfoldList(h, y, e, lim);
    hide Holds, Unfold, Valid;
    var t, t' := Unfold(h, Ref(x), d, lim), Unfold(h, Ref(y), e, lim);
    forall i | 0 <= i < |h[x].items| ensures t.items[i] == t'.items[i] {
      HoldsMeansSameTree(h, h[x].items[i], h[y].items[i], d + 1, e + 1, lim);
    }
    assert t.items == t'.items;
  }

  ghost predicate SameTree(h: Heap, lim: Limits, x: Id, y: Id)
    requires Closed(h) && x in h && y in h
  {
    exists d: nat, e: nat :: Valid(h, Ref(x), d, lim) && Valid(h, Ref(y), e, lim) &&
                             Unfold(h, Ref(x), d, lim) == Unfold(h, Ref(y), e, lim)
  }

  ghost function SameTreePairs(h: Heap, lim: Limits): Pairs
    requires Closed(h)
  {
    set x, y | x in h && y in h && SameTree(h, lim, x, y) :: (x, y)
  }

  lemma SameTreeRelated(h: Heap, lim: Limits, a: Value, b: Value, d: nat, e: nat)
    requires Closed(h) && InHeap(h, a) && InHeap(h, b) && Valid(h, a, d, lim) && Valid(h, b, e, lim)
    requires Unfold(h, a, d, lim) == Unfold(h, b, e, lim)
    ensures Related(Equality, h, SameTreePairs(h, lim), a, b)
  {
  }

  /** Having equal trees is itself a relation every pair respects. */
  lemma SameTreeMatches(h: Heap, lim: Limits, x: Id, y: Id)
    requires Closed(h) && x in h && y in h && SameTree(h, lim, x, y)
    ensures Matches(Equality, h, SameTreePairs(h, lim), h[x], h[y])
  {
    var d: nat, e: nat :| Valid(h, Ref(x), d, lim) && Valid(h, Ref(y), e, lim) &&
                          Unfold(h, Ref(x), d, lim) == Unfold(h, Ref(y), e, lim);
    if h[x].Dict? {
      SameDicts(h, lim, x, y, d, e);
    } else {
      SameLists(h, lim, x, y, d, e);
    }
  }

  lemma SameDicts(h: Heap, lim: Limits, x: Id, y: Id, d: nat, e: nat)
    requires Closed(h) && x in h && y in h && h[x].Dict? && Valid(h, Ref(x), d, lim) && Valid(h, Ref(y), e, lim)
    requires Unfold(h, Ref(x), d, lim) == Unfold(h, Ref(y), e, lim)
    ensures Matches(Equality, h, SameTreePairs(h, lim), h[x], h[y])
  {
    var t, t' := Unfold(h, Ref(x), d, lim), Unfold(h, Ref(y), e, lim);
    assert h[y].Dict?;
    UnfoldDict(h, x, d, lim);
    UnfoldDict(h, y, e, lim);
    hide SameTree, SameTreePairs, Related, Unfold, Valid;
    forall k | k in h[x].entries
      ensures k in h[y].entries && Related(Equality, h, SameTreePairs(h, lim), h[x].entries[k], h[y].entries[k])
    {
      assert t.fields[k] == t'.fields[k];
      SameTreeRelated(h, lim, h[x].entries[k], h[y].entries[k], d + 1, e + 1);
    }
  }

  lemma SameLists(h: Heap, lim: Limits, x: Id, y: Id, d: nat, e: nat)
    requires Closed(h) && x in h && y in h && h[x].List? && Valid(h, Ref(x), d, lim) && Valid(h, Ref(y), e, lim)
    requires Unfold(h, Ref(x), d, lim) == Unfold(h, Ref(y), e, lim)
    ensures Matches(Equality, h, SameTreePairs(h, lim), h[x], h[y])
  {
    var t, t' := Unfold(h, Ref(x), d, lim), Unfold(h, Ref(y), e, lim);
    assert h[y].List?;
    UnfoldList(h, x, d, lim);
    UnfoldList(h, y, e, lim);
    hide SameTree, SameTreePairs, Related, Unfold, Valid;
    forall i | 0 <= i < |h[x].items|
      ensures Related(Equality, h, SameTreePairs(h, lim), h[x].items[i], h[y].items[i])
    {
      assert t.items[i] == t'.items[i];
      SameTreeRelated(h, lim, h[x].items[i], h[y].items[i], d + 1, e + 1);
    }
  }

  /** On validated values the comparison is equality of the unfolded trees, whatever is shared. */
  lemma EqualityIsTreeEquality(h: Heap, a: Value, b: Value, d: nat, e: nat, lim: Limits)
    requires Closed(h) && InHeap(h, a) && InHeap(h, b) && Valid(h, a, d, lim) && Valid(h, b, e, lim)
    ensures Holds(Equality, h, a, b) <==> Unfold(h, a, d, lim) == Unfold(h, b, e, lim)
  {
    if Holds(Equality, h, a, b) {
      HoldsMeansSameTree(h, a, b, d, e, lim);
    }
    if Unfold(h, a, d, lim) == Unfold(h, b, e, lim) {
      forall x, y | (x, y) in SameTreePairs(h, lim) ensures Matches(Equality, h, SameTreePairs(h, lim), h[x], h[y]) {
        SameTreeMatches(h, lim, x, y);
      }
      SameTreeRelated(h, lim, a, b, d, e);
    }
  }

  ghost function Composed(r: Pairs, s: Pairs): Pairs {
    set p: (Id, Id), q: (Id, Id) | p in r && q in s && p.1 == q.0 :: (p.0, q.1)
  }

  /** Both comparisons compose. */
  lemma HoldsTransitive(mode: Mode, h: Heap, a: Value, b: Value, c: Value)
    requires Holds(mode, h, a, b) && Holds(mode, h, b, c)
    ensures Holds(mode, h, a, c)
  {
    var r :| Consistent(mode, h, r) && Related(mode, h, r, a, b);
    var s :| Consistent(mode, h, s) && Related(mode, h, s, b, c);
    var t := Composed(r, s);
    forall x, z | (x, z) in t ensures x in h && z in h && Matches(mode, h, t, h[x], h[z]) {
      var p: (Id, Id), q: (Id, Id) :| p in r && q in s && p.1 == q.0 && (p.0, q.1) == (x, z);
      assert p == (x, p.1) && q == (p.1, z);
      assert Matches(mode, h, r, h[x], h[p.1]) && Matches(mode, h, s, h[p.1], h[z]);
      MatchesCompose(mode, h, r, s, t, h[x], h[p.1], h[z]);
    }
    RelatedCompose(mode, h, r, s, t, a, b, c);
  }

  lemma RelatedCompose(mode: Mode, h: Heap, r: Pairs, s: Pairs, t: Pairs, a: Value, b: Value, c: Value)
    requires t == Composed(r, s)
    requires Related(mode, h, r, a, b) && Related(mode, h, s, b, c)
    ensures Related(mode, h, t, a, c)
  {
    if a.Ref? && b.Ref? && c.Ref? {
      var p, q := (a.id, b.id), (b.id, c.id);
      assert p in r && q in s && p.1 == q.0;
    }
  }

  lemma MatchesCompose(mode: Mode, h: Heap, r: Pairs, s: Pairs, t: Pairs, x: Container, y: Container, z: Container)
    requires t == Composed(r, s)
    requires Matches(mode, h, r, x, y) && Matches(mode, h, s, y, z)
    ensures Matches(mode, h, t, x, z)
  {
    match (x, y, z) {
      case (Dict(_, left), Dict(_, middle), Dict(_, right)) =>
        forall k | k in left && k in right ensures Related(mode, h, t, left[k], right[k]) {
          RelatedCompose(mode, h, r, s, t, left[k], middle[k], right[k]);
        }
      case (List(left), List(middle), List(right)) =>
        if mode.Equality? {
          forall i | 0 <= i < |left| ensures Related(mode, h, t, left[i], right[i]) {
            RelatedCompose(mode, h, r, s, t, left[i], middle[i], right[i]);
          }
        }
      case _ =>
    }
  }

  // ----- preservation, path by path

  /** Python's empty values. */
  predicate IsEmpty(h: Heap, v: Value)
    requires InHeap(h, v)
  {
    || v == Null || v == Bool(false) || v == Int(0) || v == Float(Finite(0.0)) || v == Str([])
    || (v.Ref? && if h[v.id].Dict? then h[v.id].keys == [] else h[v.id].items == [])
  }

  lemma EmptyIsFalsy(h: Heap, v: Value)
    requires InHeap(h, v)
    ensures Truthy(h, v) <==> !IsEmpty(h, v)
  {
  }

  /** What a path of dictionary keys leads to. */
  function Walk(h: Heap, v: Value, path: seq<Key>): Option<Value>
    decreases |path|
  {
    if path == [] then Some(v)
    else if v.Ref? && v.id in h && h[v.id].Dict? && path[0] in h[v.id].entries then
      Walk(h, h[v.id].entries[path[0]], path[1..])
    else None
  }

  /** The candidate has kept what the baseline has: a dictionary its keys, anything else its type, without becoming
      empty. */
  predicate Kept(h: Heap, a: Value, b: Value)
    requires InHeap(h, a) && InHeap(h, b)
  {
    match a
    case Null => false
    case Bool(_) => b == Bool(true)
    case Int(_) => b.Int? && b.number != 0
    case Float(_) => b.Float? && b.float != Finite(0.0)
    case Str(_) => b.Str? && b.text != []
    case Foreign(t) => b == Foreign(t)
    case Ref(x) =>
      b.Ref? && if h[x].Dict? then h[b.id].Dict? && forall k :: k in h[x].entries ==> k in h[b.id].entries
                else h[b.id].List? && h[b.id].items != []
  }

  lemma {:induction false} WalkInHeap(h: Heap, v: Value, path: seq<Key>)
    requires Closed(h) && InHeap(h, v)
    ensures Walk(h, v, path).Some? ==> InHeap(h, Walk(h, v, path).value)
    decreases |path|
  {
    if path != [] && v.Ref? && h[v.id].Dict? && path[0] in h[v.id].entries {
      EntryIsChild(h[v.id], path[0]);
      WalkInHeap(h, h[v.id].entries[path[0]], path[1..]);
    }
  }

  lemma {:induction false} WalkOn(h: Heap, v: Value, path: seq<Key>, key: Key)
    requires Closed(h) && InHeap(h, v) && Walk(h, v, path).Some?
    ensures Walk(h, v, path + [key]) == Walk(h, Walk(h, v, path).value, [key])
    decreases |path|
  {
    if path == [] {
      assert path + [key] == [key];
    } else {
      EntryIsChild(h[v.id], path[0]);
      assert (path + [key])[0] == path[0] && (path + [key])[1..] == path[1..] + [key];
      WalkOn(h, h[v.id].entries[path[0]], path[1..], key);
    }
  }

  ghost predicate KeptAt(h: Heap, a: Value, b: Value, path: seq<Key>)
    requires Closed(h) && InHeap(h, a) && InHeap(h, b)
  {
    WalkInHeap(h, a, path);
    WalkInHeap(h, b, path);
    Walk(h, a, path).Some? ==> Walk(h, b, path).Some? && Kept(h, Walk(h, a, path).value, Walk(h, b, path).value)
  }

  lemma HoldsMeansKept(h: Heap, a: Value, b: Value)
    requires Closed(h) && InHeap(h, a) && InHeap(h, b) && Holds(Preservation, h, a, b)
    ensures Kept(h, a, b)
  {
    if a.Ref? && b.Ref? {
      HoldsUnrolls(Preservation, h, a, b);
    }
  }

  lemma {:induction false} HoldsMeansKeptAt(h: Heap, a: Value, b: Value, path: seq<Key>)
    requires Closed(h) && InHeap(h, a) && InHeap(h, b) && Holds(Preservation, h, a, b)
    ensures KeptAt(h, a, b, path)
    decreases |path|
  {
    HoldsMeansKept(h, a, b);
    if path != [] && Walk(h, a, path).Some? {
      HoldsUnrolls(Preservation, h, a, b);
      EntryIsChild(h[a.id], path[0]);
      EntryIsChild(h[b.id], path[0]);
      HoldsMeansKeptAt(h, h[a.id].entries[path[0]], h[b.id].entries[path[0]], path[1..]);
    }
  }

  ghost predicate MetAt(h: Heap, a: Value, b: Value, path: seq<Key>, x: Id, y: Id) {
    Walk(h, a, path) == Some(Ref(x)) && Walk(h, b, path) == Some(Ref(y))
  }

  /** The pairs of containers that one path of keys leads to. */
  ghost function MetPairs(h: Heap, a: Value, b: Value): Pairs {
    set x, y | x in h && y in h && exists path :: MetAt(h, a, b, path, x, y) :: (x, y)
  }

  lemma KeptIsRelated(h: Heap, a: Value, b: Value, path: seq<Key>)
    requires Closed(h) && InHeap(h, a) && InHeap(h, b)
    requires Walk(h, a, path).Some? && KeptAt(h, a, b, path)
    ensures Related(Preservation, h, MetPairs(h, a, b), Walk(h, a, path).value, Walk(h, b, path).value)
  {
    WalkInHeap(h, a, path);
    WalkInHeap(h, b, path);
    var v, w := Walk(h, a, path).value, Walk(h, b, path).value;
    if v.Ref? {
      assert MetAt(h, a, b, path, v.id, w.id);
    }
  }

  lemma MetPairsConsistent(h: Heap, a: Value, b: Value)
    requires Closed(h) && InHeap(h, a) && InHeap(h, b) && forall path :: KeptAt(h, a, b, path)
    ensures Consistent(Preservation, h, MetPairs(h, a, b))
  {
    var met := MetPairs(h, a, b);
    forall x, y | (x, y) in met ensures Matches(Preservation, h, met, h[x], h[y]) {
      var path :| MetAt(h, a, b, path, x, y);
      assert KeptAt(h, a, b, path);
      hide KeptAt, Closed;
      if h[x].Dict? {
        forall k | k in h[x].entries ensures Related(Preservation, h, met, h[x].entries[k], h[y].entries[k]) {
          WalkOn(h, a, path, k);
          WalkOn(h, b, path, k);
          assert Walk(h, h[x].entries[k], []) == Some(h[x].entries[k]);
          assert [k][0] == k && [k][1..] == [];
          KeptIsRelated(h, a, b, path + [k]);
        }
      }
    }
  }

  /** Structure is preserved exactly if along every path of keys the baseline has, the candidate has kept what is
      there, on shared and cyclic values too. */
  lemma PreservedIffKeptEverywhere(h: Heap, a: Value, b: Value)
    requires Closed(h) && InHeap(h, a) && InHeap(h, b)
    ensures Holds(Preservation, h, a, b) <==> forall path :: KeptAt(h, a, b, path)
  {
    if Holds(Preservation, h, a, b) {
      forall path ensures KeptAt(h, a, b, path) {
        HoldsMeansKeptAt(h, a, b, path);
      }
    }
    if forall path :: KeptAt(h, a, b, path) {
      MetPairsConsistent(h, a, b);
      KeptIsRelated(h, a, b, []);
    }
  }
}
