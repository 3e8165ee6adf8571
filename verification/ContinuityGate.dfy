/** The assertion evaluator of the continuity gate: look a path up in the baseline and in the candidate,
    compare the two values with one of three operators, collect the regressions, decide the exit code.

    Main results: the report lists exactly the assertions that do not pass, the exit code is 0 exactly when no
    critical one is among them, and passing composes along baseline -> B -> C. */
module ContinuityGate {
  import opened Wrappers
  import opened JsonHeap
  import opened ContinuityCompare

  datatype Operator = Equal | ContainsAll | NonEmpty | Unsupported

  /** One dotted component of a path, with its reading as a list index if it is all digits. */
  datatype Part = Part(name: Text, index: Option<nat>)

  datatype Assertion = Assertion(path: seq<Part>, operator: Operator, critical: bool)
  datatype Case = Case(baseline: Value, candidate: Value, assertions: seq<Assertion>)

  // ----- path lookup

  function Descend(h: Heap, v: Value, part: Part): Option<Value>
    requires InHeap(h, v)
  {
    if v.Ref? && h[v.id].Dict? && TextKey(part.name) in h[v.id].entries then Some(h[v.id].entries[TextKey(part.name)])
    else if v.Ref? && h[v.id].List? && part.index.Some? && part.index.value < |h[v.id].items| then
      Some(h[v.id].items[part.index.value])
    else None
  }

  lemma DescendInHeap(h: Heap, v: Value, part: Part)
    requires Closed(h) && InHeap(h, v)
    ensures Descend(h, v, part).Some? ==> InHeap(h, Descend(h, v, part).value)
  {
    if v.Ref? && h[v.id].Dict? && TextKey(part.name) in h[v.id].entries {
      EntryIsChild(h[v.id], TextKey(part.name));
    } else if v.Ref? && h[v.id].List? && part.index.Some? && part.index.value < |h[v.id].items| {
      assert h[v.id].Child(part.index.value) == h[v.id].items[part.index.value];
    }
  }

  function Lookup(h: Heap, v: Value, path: seq<Part>): (r: Option<Value>)
    requires Closed(h) && InHeap(h, v)
    ensures r.Some? ==> InHeap(h, r.value)
    decreases |path|
  {
    if path == [] then Some(v)
    else
      DescendInHeap(h, v, path[0]);
      var next := Descend(h, v, path[0]);
      if next.None? then None else Lookup(h, next.value, path[1..])
  }

  method LookupPath(h: Heap, value: Value, path: seq<Part>) returns (r: Option<Value>)
    requires Closed(h) && InHeap(h, value)
    ensures r == Lookup(h, value, path)
  {
    var current := value;
    for i := 0 to |path|
      invariant InHeap(h, current)
      invariant Lookup(h, value, path) == Lookup(h, current, path[i..])
    {
      DescendInHeap(h, current, path[i]);
      var next := Descend(h, current, path[i]);
      assert path[i..][0] == path[i] && path[i..][1..] == path[i + 1..];
      if next.None? {
        return None;
      }
      current := next.value;
    }
    r := Some(current);
  }

  // ----- one comparison

  ghost predicate Contains(h: Heap, item: Value, candidates: seq<Value>) {
    exists j :: 0 <= j < |candidates| && Holds(Equality, h, item, candidates[j])
  }

  /** Comparisons spent looking for `item`: up to and including the first match. */
  ghost function SearchCost(h: Heap, item: Value, candidates: seq<Value>): nat {
    if candidates == [] then 0
    else if Holds(Equality, h, item, candidates[0]) then 1
    else 1 + SearchCost(h, item, candidates[1..])
  }

  ghost function ContainsCost(h: Heap, items: seq<Value>, candidates: seq<Value>): nat {
    if items == [] then 0
    else ContainsCost(h, items[..|items| - 1], candidates) + SearchCost(h, items[|items| - 1], candidates)
  }

  predicate IsList(h: Heap, v: Option<Value>) {
    v.Some? && v.value.Ref? && v.value.id in h && h[v.value.id].List?
  }

  ghost predicate InHeapIfFound(h: Heap, v: Option<Value>) {
    v.Some? ==> InHeap(h, v.value)
  }

  /** What the operators promise, independently of memo, budget and search order; `contains_all` also has to
      stay within its own comparison cap. */
  ghost predicate Passes(h: Heap, operator: Operator, baseline: Option<Value>, candidate: Option<Value>, cap: nat)
    requires InHeapIfFound(h, baseline) && InHeapIfFound(h, candidate)
  {
    match operator
    case Equal => baseline.Some? && candidate.Some? && Holds(Equality, h, baseline.value, candidate.value)
    case ContainsAll =>
      && IsList(h, baseline) && IsList(h, candidate)
      && var items, candidates := h[baseline.value.id].items, h[candidate.value.id].items;
         && (forall i :: 0 <= i < |items| ==> Contains(h, items[i], candidates))
         && ContainsCost(h, items, candidates) <= cap
    case NonEmpty =>
      && baseline.Some? && Truthy(h, baseline.value)
      && candidate.Some? && Holds(Preservation, h, baseline.value, candidate.value)
    case Unsupported => false
  }

  function AtMost(n: nat, cap: nat): nat {
    if n <= cap then n else cap
  }

  /** The comparisons of values an operator makes, each of which takes at least one from the budget. */
  ghost function Comparisons(h: Heap, operator: Operator, baseline: Option<Value>, candidate: Option<Value>,
                             cap: nat): nat
    requires InHeapIfFound(h, baseline)
  {
    match operator
    case Equal => if baseline.Some? && candidate.Some? then 1 else 0
    case ContainsAll =>
      if IsList(h, baseline) && IsList(h, candidate) then
        AtMost(ContainsCost(h, h[baseline.value.id].items, h[candidate.value.id].items), cap)
      else 0
    case NonEmpty => if baseline.Some? && !IsEmpty(h, baseline.value) && candidate.Some? then 1 else 0
    case Unsupported => 0
  }

  /** A budget that certainly pays for `n` comparisons. */
  ghost function BudgetFor(h: Heap, n: nat): nat {
    n * ComparisonBound(h)
  }

  lemma BudgetForAdds(h: Heap, a: nat, b: nat, total: nat)
    requires a + b <= total
    ensures BudgetFor(h, a + b) == BudgetFor(h, a) + BudgetFor(h, b) <= BudgetFor(h, total)
  {
    assert (a + b) * ComparisonBound(h) == a * ComparisonBound(h) + b * ComparisonBound(h);
    assert (a + b) * ComparisonBound(h) <= total * ComparisonBound(h);
  }

  method EqualValues(h: Heap, left: Value, right: Value, budget: ComparisonBudget) returns (r: Outcome)
    requires Closed(h) && InHeap(h, left) && InHeap(h, right) && budget.remaining >= 0
    modifies budget
    ensures r.Verdict? <==> 0 <= budget.remaining
    ensures 1 <= old(budget.remaining) - budget.remaining <= BudgetFor(h, 1)
    ensures r.Verdict? ==> (r.agree <==> Holds(Equality, h, left, right))
  {
    var seen := new SeenPairs();
    r := JsonEqual(h, left, right, seen, budget);
    PairsWeightAdds(Equality, h, seen.pairs - {}, HeapPairs(h));
    assert r == Verdict(true) ==> Consistent(Equality, h, seen.pairs);
  }

  method FindEqual(h: Heap, item: Value, candidates: seq<Value>, spent: nat, cap: nat, budget: ComparisonBudget)
    returns (r: Outcome, spent': nat)
    requires Closed(h) && InHeap(h, item) && budget.remaining >= 0 && spent <= cap
    requires forall j :: 0 <= j < |candidates| ==> InHeap(h, candidates[j])
    modifies budget
    ensures r.Verdict? <==> 0 <= budget.remaining
    ensures spent <= spent' <= cap + 1
    ensures old(budget.remaining) - budget.remaining <= BudgetFor(h, spent' - spent)
    ensures old(budget.remaining) - budget.remaining >= (if spent' <= cap then spent' else cap) - spent
    ensures r.Verdict? && spent' <= cap ==>
              && (r.agree <==> Contains(h, item, candidates)) && spent' == spent + SearchCost(h, item, candidates)
    ensures r.Verdict? && spent' > cap ==> spent + SearchCost(h, item, candidates) > cap
  {
    spent' := spent;
    for j := 0 to |candidates|
      invariant budget.remaining >= 0 && spent' == spent + j <= cap
      invariant j <= old(budget.remaining) - budget.remaining <= BudgetFor(h, j)
      invariant forall k :: 0 <= k < j ==> !Holds(Equality, h, item, candidates[k])
      invariant SearchCost(h, item, candidates) == j + SearchCost(h, item, candidates[j..])
    {
      BudgetForAdds(h, j, 1, j + 1);
      hide Holds, Closed, BudgetFor;
      assert candidates[j..][0] == candidates[j] && candidates[j..][1..] == candidates[j + 1..];
      spent' := spent' + 1;
      if spent' > cap {
        return Verdict(false), spent';
      }
      r := EqualValues(h, item, candidates[j], budget);
      if r != Verdict(false) {
        return;
      }
    }
    r := Verdict(false);
  }

  lemma ContainsCostGrows(h: Heap, items: seq<Value>, candidates: seq<Value>, n: nat)
    requires n <= |items|
    ensures ContainsCost(h, items[..n], candidates) <= ContainsCost(h, items, candidates)
    ensures n < |items| ==> ContainsCost(h, items[..n + 1], candidates) ==
                            ContainsCost(h, items[..n], candidates) + SearchCost(h, items[n], candidates)
    decreases |items|
  {
    if n < |items| {
      assert items[..n + 1][..n] == items[..n];
      var most := items[..|items| - 1];
      assert most[..n] == items[..n];
      ContainsCostGrows(h, most, candidates, n);
    } else {
      assert items[..n] == items;
    }
  }

  lemma ListItemsInHeap(h: Heap, id: Id)
    requires Closed(h) && id in h && h[id].List?
    ensures forall i :: 0 <= i < |h[id].items| ==> InHeap(h, h[id].items[i])
  {
    assert forall i :: 0 <= i < |h[id].items| ==> h[id].Child(i) == h[id].items[i];
  }

  method CompareContainsAll(h: Heap, items: seq<Value>, candidates: seq<Value>, cap: nat, budget: ComparisonBudget)
    returns (r: Outcome)
    requires Closed(h) && budget.remaining >= 0
    requires forall i :: 0 <= i < |items| ==> InHeap(h, items[i])
    requires forall j :: 0 <= j < |candidates| ==> InHeap(h, candidates[j])
    modifies budget
    ensures r.Verdict? <==> 0 <= budget.remaining
    ensures old(budget.remaining) - budget.remaining <= BudgetFor(h, cap + 1)
    ensures r.Verdict? ==>
              old(budget.remaining) - budget.remaining >= AtMost(ContainsCost(h, items, candidates), cap)
    ensures r.Verdict? ==>
              (r.agree <==>
                && (forall i :: 0 <= i < |items| ==> Contains(h, items[i], candidates))
                && ContainsCost(h, items, candidates) <= cap)
  {
    hide Contains, SearchCost, ContainsCost, Closed, BudgetFor;
    BudgetForAdds(h, 0, 0, 0);
    var missing, spent := 0, 0;
    NothingCostsNothing(h, candidates);
    for i := 0 to |items|
      invariant budget.remaining >= 0 && spent == ContainsCost(h, items[..i], candidates) <= cap
      invariant spent <= old(budget.remaining) - budget.remaining <= BudgetFor(h, spent)
      invariant missing >= 0
      invariant missing == 0 <==> forall k :: 0 <= k < i ==> Contains(h, items[k], candidates)
    {
      ContainsCostGrows(h, items, candidates, i);
      ContainsCostGrows(h, items, candidates, i + 1);
      ghost var before := spent;
      r, spent := FindEqual(h, items[i], candidates, spent, cap, budget);
      BudgetForAdds(h, before, spent - before, cap + 1);
      if r.BudgetExceeded? {
        return;
      }
      if spent > cap {
        return Verdict(false);
      }
      if !r.agree {
        missing := missing + 1;
      }
    }
    assert items[..|items|] == items;
    BudgetForAdds(h, spent, 0, cap + 1);
    r := Verdict(missing == 0);
  }

  lemma NothingCostsNothing(h: Heap, candidates: seq<Value>)
    ensures ContainsCost(h, [], candidates) == 0
  {
  }

  method Compare(h: Heap, operator: Operator, baseline: Option<Value>, candidate: Option<Value>, cap: nat,
                 budget: ComparisonBudget) returns (r: Outcome)
    requires Closed(h) && InHeapIfFound(h, baseline) && InHeapIfFound(h, candidate) && budget.remaining >= 0
    modifies budget
    ensures r.Verdict? <==> 0 <= budget.remaining
    ensures old(budget.remaining) - budget.remaining <= BudgetFor(h, cap + 1)
    ensures r.Verdict? ==>
              old(budget.remaining) - budget.remaining >= Comparisons(h, operator, baseline, candidate, cap)
    ensures r.Verdict? ==> (r.agree <==> Passes(h, operator, baseline, candidate, cap))
  {
    BudgetForAdds(h, 1, cap, cap + 1);
    hide BudgetFor, Passes, Closed, PairsWeight;
    match operator {
      case Equal =>
        if baseline.None? || candidate.None? {
          return Verdict(false);
        }
        r := EqualValues(h, baseline.value, candidate.value, budget);
      case ContainsAll =>
        if !IsList(h, baseline) || !IsList(h, candidate) {
          return Verdict(false);
        }
        ListItemsInHeap(h, baseline.value.id);
        ListItemsInHeap(h, candidate.value.id);
        r := CompareContainsAll(h, h[baseline.value.id].items, h[candidate.value.id].items, cap, budget);
      case NonEmpty =>
        if baseline.Some? {
          EmptyIsFalsy(h, baseline.value);
        }
        if baseline.None? || !Truthy(h, baseline.value) || candidate.None? {
          return Verdict(false);
        }
        var seen := new SeenPairs();
        r := PreservesNonEmptyStructure(h, baseline.value, candidate.value, seen, budget);
        PairsWeightAdds(Equality, h, seen.pairs - {}, HeapPairs(h));
        PreservationWeighsLess(h, seen.pairs - {});
        assert r == Verdict(true) ==> Consistent(Preservation, h, seen.pairs);
      case Unsupported =>
        r := Verdict(false);
    }
  }

  // ----- the evaluator

  ghost predicate CaseInHeap(h: Heap, c: Case) {
    InHeap(h, c.baseline) && InHeap(h, c.candidate)
  }

  ghost predicate AssertionPasses(h: Heap, c: Case, a: Assertion, cap: nat)
    requires Closed(h) && CaseInHeap(h, c)
  {
    Passes(h, a.operator, Lookup(h, c.baseline, a.path), Lookup(h, c.candidate, a.path), cap)
  }

  datatype Regression = Regression(caseIndex: nat, assertionIndex: nat, critical: bool)

  datatype Report = Invalid | Evaluated(regressions: seq<Regression>, caseBlocked: seq<bool>) {
    function ExitCode(): nat {
      if Invalid? then 2 else if exists i :: 0 <= i < |regressions| && regressions[i].critical then 1 else 0
    }
  }

  /** The assertions of case `i` among the first `n` that do not pass, in order. */
  ghost function CaseRegressions(h: Heap, c: Case, i: nat, n: nat, cap: nat): seq<Regression>
    requires Closed(h) && CaseInHeap(h, c) && n <= |c.assertions|
  {
    if n == 0 then []
    else
      CaseRegressions(h, c, i, n - 1, cap) +
      (if AssertionPasses(h, c, c.assertions[n - 1], cap) then []
       else [Regression(i, n - 1, c.assertions[n - 1].critical)])
  }

  ghost function AllRegressions(h: Heap, cases: seq<Case>, cap: nat): seq<Regression>
    requires Closed(h) && forall i :: 0 <= i < |cases| ==> CaseInHeap(h, cases[i])
  {
    if cases == [] then []
    else
      var last := |cases| - 1;
      AllRegressions(h, cases[..last], cap) + CaseRegressions(h, cases[last], last, |cases[last].assertions|, cap)
  }

  /** The comparisons made for the first `n` assertions of a case, and for the first `n` cases. */
  ghost function CaseComparisons(h: Heap, c: Case, n: nat, cap: nat): nat
    requires Closed(h) && CaseInHeap(h, c) && n <= |c.assertions|
  {
    if n == 0 then 0
    else
      var a := c.assertions[n - 1];
      CaseComparisons(h, c, n - 1, cap)
      + Comparisons(h, a.operator, Lookup(h, c.baseline, a.path), Lookup(h, c.candidate, a.path), cap)
  }

  ghost function AllComparisons(h: Heap, cases: seq<Case>, n: nat, cap: nat): nat
    requires Closed(h) && n <= |cases| && forall i :: 0 <= i < |cases| ==> CaseInHeap(h, cases[i])
  {
    if n == 0 then 0
    else AllComparisons(h, cases, n - 1, cap) + CaseComparisons(h, cases[n - 1], |cases[n - 1].assertions|, cap)
  }

  predicate AnyCritical(regressions: seq<Regression>) {
    exists i :: 0 <= i < |regressions| && regressions[i].critical
  }

  /** A budget that certainly pays for `n` assertions. */
  ghost function Allowance(h: Heap, n: nat, cap: nat): nat {
    BudgetFor(h, n * (cap + 1))
  }

  lemma AllowanceAdds(h: Heap, a: nat, b: nat, total: nat, cap: nat)
    requires a + b <= total
    ensures Allowance(h, a + b, cap) == Allowance(h, a, cap) + Allowance(h, b, cap) <= Allowance(h, total, cap)
    ensures Allowance(h, 0, cap) == 0 && Allowance(h, 1, cap) == BudgetFor(h, cap + 1)
  {
    assert (a + b) * (cap + 1) == a * (cap + 1) + b * (cap + 1) <= total * (cap + 1);
    BudgetForAdds(h, a * (cap + 1), b * (cap + 1), total * (cap + 1));
  }

  method EvaluateCase(h: Heap, c: Case, i: nat, cap: nat, budget: ComparisonBudget)
    returns (ok: bool, regressions: seq<Regression>)
    requires Closed(h) && CaseInHeap(h, c) && budget.remaining >= 0
    modifies budget
    ensures ok <==> budget.remaining >= 0
    ensures old(budget.remaining) - budget.remaining <= Allowance(h, |c.assertions|, cap)
    ensures ok ==> old(budget.remaining) - budget.remaining >= CaseComparisons(h, c, |c.assertions|, cap)
    ensures ok ==> regressions == CaseRegressions(h, c, i, |c.assertions|, cap)
  {
    hide Passes, Closed, Allowance, Comparisons;
    AllowanceAdds(h, 0, 0, 0, cap);
    regressions := [];
    for n := 0 to |c.assertions|
      invariant budget.remaining >= 0
      invariant old(budget.remaining) - budget.remaining <= Allowance(h, n, cap)
      invariant old(budget.remaining) - budget.remaining >= CaseComparisons(h, c, n, cap)
      invariant regressions == CaseRegressions(h, c, i, n, cap)
    {
      AllowanceAdds(h, n, 1, |c.assertions|, cap);
      var a := c.assertions[n];
      var baseline := LookupPath(h, c.baseline, a.path);
      var candidate := LookupPath(h, c.candidate, a.path);
      var r := Compare(h, a.operator, baseline, candidate, cap, budget);
      if r.BudgetExceeded? {
        return false, [];
      }
      if !r.agree {
        regressions := regressions + [Regression(i, n, a.critical)];
      }
    }
    ok := true;
  }

  function AssertionCount(cases: seq<Case>): nat {
    if cases == [] then 0 else AssertionCount(cases[..|cases| - 1]) + |cases[|cases| - 1].assertions|
  }

  lemma AssertionCountGrows(cases: seq<Case>, n: nat)
    requires n < |cases|
    ensures AssertionCount(cases[..n + 1]) == AssertionCount(cases[..n]) + |cases[n].assertions|
    ensures AssertionCount(cases[..n + 1]) <= AssertionCount(cases)
    decreases |cases|
  {
    assert cases[..n + 1][..n] == cases[..n];
    if n + 1 < |cases| {
      var most := cases[..|cases| - 1];
      AssertionCountGrows(most, n);
      assert most[..n] == cases[..n] && most[..n + 1] == cases[..n + 1];
    } else {
      assert cases[..n + 1] == cases;
    }
  }

  lemma AllRegressionsOfNone(h: Heap, cases: seq<Case>, cap: nat)
    requires Closed(h)
    ensures AllRegressions(h, cases[..0], cap) == [] && AssertionCount(cases[..0]) == 0
  {
  }

  lemma AllRegressionsGrow(h: Heap, cases: seq<Case>, i: nat, cap: nat)
    requires Closed(h) && (forall k :: 0 <= k < |cases| ==> CaseInHeap(h, cases[k])) && i < |cases|
    ensures AllRegressions(h, cases[..i + 1], cap)
         == AllRegressions(h, cases[..i], cap) + CaseRegressions(h, cases[i], i, |cases[i].assertions|, cap)
  {
    assert cases[..i + 1][..i] == cases[..i];
  }

  lemma NothingCompared(h: Heap, cases: seq<Case>, cap: nat)
    requires Closed(h) && forall k :: 0 <= k < |cases| ==> CaseInHeap(h, cases[k])
    ensures AllComparisons(h, cases, 0, cap) == 0
  {
  }

  lemma ComparisonsGrow(h: Heap, cases: seq<Case>, i: nat, cap: nat)
    requires Closed(h) && (forall k :: 0 <= k < |cases| ==> CaseInHeap(h, cases[k])) && i < |cases|
    ensures AllComparisons(h, cases, i + 1, cap)
         == AllComparisons(h, cases, i, cap) + CaseComparisons(h, cases[i], |cases[i].assertions|, cap)
  {
  }

  ghost predicate CriticalFailure(h: Heap, c: Case, n: nat, cap: nat)
    requires Closed(h) && CaseInHeap(h, c) && n < |c.assertions|
  {
    c.assertions[n].critical && !AssertionPasses(h, c, c.assertions[n], cap)
  }

  lemma {:induction false} CaseHasCritical(h: Heap, c: Case, i: nat, n: nat, cap: nat)
    requires Closed(h) && CaseInHeap(h, c) && n <= |c.assertions|
    ensures AnyCritical(CaseRegressions(h, c, i, n, cap)) <==> exists k :: 0 <= k < n && CriticalFailure(h, c, k, cap)
  {
    if n > 0 {
      CaseHasCritical(h, c, i, n - 1, cap);
      var before := CaseRegressions(h, c, i, n - 1, cap);
      var added := if AssertionPasses(h, c, c.assertions[n - 1], cap) then []
                   else [Regression(i, n - 1, c.assertions[n - 1].critical)];
      AnyCriticalConcat(before, added);
      assert AnyCritical(added) <==> CriticalFailure(h, c, n - 1, cap) by {
        if CriticalFailure(h, c, n - 1, cap) {
          assert added[0].critical;
        }
      }
    }
  }

  lemma AnyCriticalConcat(a: seq<Regression>, b: seq<Regression>)
    ensures AnyCritical(a + b) <==> AnyCritical(a) || AnyCritical(b)
  {
    if AnyCritical(a) {
      var i :| 0 <= i < |a| && a[i].critical;
      assert (a + b)[i] == a[i];
    }
    if AnyCritical(b) {
      var i :| 0 <= i < |b| && b[i].critical;
      assert (a + b)[|a| + i] == b[i];
    }
  }

  /** A case is blocked exactly if one of its critical assertions fails. */
  ghost predicate BlockedAre(h: Heap, cases: seq<Case>, blocked: seq<bool>, cap: nat)
    requires Closed(h) && (forall i :: 0 <= i < |cases| ==> CaseInHeap(h, cases[i])) && |blocked| <= |cases|
  {
    forall i :: 0 <= i < |blocked| ==>
      (blocked[i] <==> exists n :: 0 <= n < |cases[i].assertions| && CriticalFailure(h, cases[i], n, cap))
  }

  lemma BlockedAdds(h: Heap, cases: seq<Case>, blocked: seq<bool>, cap: nat)
    requires Closed(h) && (forall i :: 0 <= i < |cases| ==> CaseInHeap(h, cases[i])) && |blocked| < |cases|
    requires BlockedAre(h, cases, blocked, cap)
    ensures var i := |blocked|;
            BlockedAre(h, cases,
              blocked + [AnyCritical(CaseRegressions(h, cases[i], i, |cases[i].assertions|, cap))], cap)
  {
    var i := |blocked|;
    CaseHasCritical(h, cases[i], i, |cases[i].assertions|, cap);
    hide CriticalFailure, CaseRegressions, AnyCritical, Closed;
  }

  method Evaluate(h: Heap, cases: seq<Case>, nodes: nat, cap: nat) returns (report: Report)
    requires Closed(h) && forall i :: 0 <= i < |cases| ==> CaseInHeap(h, cases[i])
    ensures report.Invalid? ==> nodes < Allowance(h, AssertionCount(cases), cap) && report.ExitCode() == 2
    ensures report.Evaluated? ==> nodes >= AllComparisons(h, cases, |cases|, cap)
    ensures report.Evaluated? ==>
              && report.regressions == AllRegressions(h, cases, cap)
              && |report.caseBlocked| == |cases| && BlockedAre(h, cases, report.caseBlocked, cap)
  {
    var budget := new ComparisonBudget(nodes);
    var regressions, blocked := [], [];
    hide Allowance, AssertionPasses, Closed, AnyCritical, CaseRegressions, CaseInHeap, CriticalFailure;
    AllowanceAdds(h, 0, 0, 0, cap);
    AllRegressionsOfNone(h, cases, cap);
    NothingCompared(h, cases, cap);
    assert BlockedAre(h, cases, [], cap);
    hide AllRegressions, AssertionCount, CaseComparisons, AllComparisons, BlockedAre;
    for i := 0 to |cases|
      invariant budget.remaining >= 0
      invariant nodes - budget.remaining <= Allowance(h, AssertionCount(cases[..i]), cap)
      invariant nodes - budget.remaining >= AllComparisons(h, cases, i, cap)
      invariant regressions == AllRegressions(h, cases[..i], cap)
      invariant |blocked| == i && BlockedAre(h, cases, blocked, cap)
    {
      AssertionCountGrows(cases, i);
      AllowanceAdds(h, AssertionCount(cases[..i]), |cases[i].assertions|, AssertionCount(cases), cap);
      ComparisonsGrow(h, cases, i, cap);
      var ok, found := EvaluateCase(h, cases[i], i, cap, budget);
      if !ok {
        return Invalid;
      }
      AllRegressionsGrow(h, cases, i, cap);
      BlockedAdds(h, cases, blocked, cap);
      regressions := regressions + found;
      blocked := blocked + [AnyCritical(found)];
    }
    assert cases[..|cases|] == cases;
    report := Evaluated(regressions, blocked);
  }

  // ----- what exit code 0 means

  /** An evaluated report exits with 0 exactly when every critical assertion of every case passes, and else with 1. */
  lemma {:induction false} ExitCodeZero(h: Heap, cases: seq<Case>, cap: nat, blocked: seq<bool>)
    requires Closed(h) && forall i :: 0 <= i < |cases| ==> CaseInHeap(h, cases[i])
    ensures Evaluated(AllRegressions(h, cases, cap), blocked).ExitCode() in {0, 1}
    ensures Evaluated(AllRegressions(h, cases, cap), blocked).ExitCode() == 0 <==>
            forall i, n :: 0 <= i < |cases| && 0 <= n < |cases[i].assertions| ==> !CriticalFailure(h, cases[i], n, cap)
    decreases |cases|
  {
    hide AssertionPasses, CaseRegressions, CriticalFailure, Closed;
    if cases != [] {
      var last := |cases| - 1;
      ExitCodeZero(h, cases[..last], cap, blocked);
      CaseHasCritical(h, cases[last], last, |cases[last].assertions|, cap);
      AnyCriticalConcat(AllRegressions(h, cases[..last], cap),
                        CaseRegressions(h, cases[last], last, |cases[last].assertions|, cap));
    }
  }

  // ----- what the report lists

  /** The assertion does not pass on the values its path leads to. */
  ghost predicate FailsIn(h: Heap, c: Case, x: Regression, cap: nat)
    requires Closed(h) && CaseInHeap(h, c)
  {
    && x.assertionIndex < |c.assertions|
    && var a := c.assertions[x.assertionIndex];
       && x.critical == a.critical
       && !Passes(h, a.operator, Lookup(h, c.baseline, a.path), Lookup(h, c.candidate, a.path), cap)
  }

  ghost predicate Fails(h: Heap, cases: seq<Case>, x: Regression, cap: nat)
    requires Closed(h) && forall i :: 0 <= i < |cases| ==> CaseInHeap(h, cases[i])
  {
    x.caseIndex < |cases| && FailsIn(h, cases[x.caseIndex], x, cap)
  }

  predicate ListedBefore(x: Regression, y: Regression) {
    x.caseIndex < y.caseIndex || (x.caseIndex == y.caseIndex && x.assertionIndex < y.assertionIndex)
  }

  predicate InListOrder(found: seq<Regression>) {
    forall k, l :: 0 <= k < l < |found| ==> ListedBefore(found[k], found[l])
  }

  lemma OrderAdds(found: seq<Regression>, more: seq<Regression>)
    requires InListOrder(found) && InListOrder(more)
    requires forall x, y :: x in found && y in more ==> ListedBefore(x, y)
    ensures InListOrder(found + more)
  {
    hide ListedBefore;
    assert forall k :: 0 <= k < |found| ==> found[k] in found;
    assert forall k :: 0 <= k < |more| ==> more[k] in more;
  }

  lemma LastAdds(found: seq<Regression>, last: Regression)
    requires InListOrder(found) && forall x :: x in found ==> ListedBefore(x, last)
    ensures InListOrder(found + [last])
    ensures forall x :: x in found + [last] <==> x in found || x == last
  {
    OrderAdds(found, [last]);
  }

  function RegressionAt(c: Case, i: nat, n: nat): Regression
    requires n < |c.assertions|
  {
    Regression(i, n, c.assertions[n].critical)
  }

  lemma CaseRegressionsAdd(h: Heap, c: Case, i: nat, n: nat, cap: nat)
    requires Closed(h) && CaseInHeap(h, c) && n < |c.assertions|
    ensures CaseRegressions(h, c, i, n + 1, cap) ==
            CaseRegressions(h, c, i, n, cap)
            + if FailsIn(h, c, RegressionAt(c, i, n), cap) then [RegressionAt(c, i, n)] else []
    ensures forall x: Regression :: x.caseIndex == i && x.assertionIndex == n && FailsIn(h, c, x, cap) ==>
              x == RegressionAt(c, i, n)
  {
    hide Passes, Closed, Lookup;
  }

  lemma {:induction false} CaseRegressionsAre(h: Heap, c: Case, i: nat, n: nat, cap: nat)
    requires Closed(h) && CaseInHeap(h, c) && n <= |c.assertions|
    ensures forall x: Regression :: x in CaseRegressions(h, c, i, n, cap) <==>
              x.caseIndex == i && x.assertionIndex < n && FailsIn(h, c, x, cap)
    ensures InListOrder(CaseRegressions(h, c, i, n, cap))
  {
    hide FailsIn, Closed, CaseInHeap;
    if n > 0 {
      CaseRegressionsAre(h, c, i, n - 1, cap);
      CaseRegressionsAdd(h, c, i, n - 1, cap);
      var last := RegressionAt(c, i, n - 1);
      var before := CaseRegressions(h, c, i, n - 1, cap);
      hide CaseRegressions, InListOrder;
      if FailsIn(h, c, last, cap) {
        LastAdds(before, last);
      } else {
        assert before + [] == before;
      }
    }
  }

  lemma {:induction false} FirstRegressionsAre(h: Heap, cases: seq<Case>, n: nat, cap: nat)
    requires Closed(h) && (forall k :: 0 <= k < |cases| ==> CaseInHeap(h, cases[k])) && n <= |cases|
    ensures forall x: Regression :: x in AllRegressions(h, cases[..n], cap) <==>
              x.caseIndex < n && Fails(h, cases, x, cap)
    ensures InListOrder(AllRegressions(h, cases[..n], cap))
  {
    if n > 0 {
      FirstRegressionsAre(h, cases, n - 1, cap);
      AllRegressionsGrow(h, cases, n - 1, cap);
      CaseRegressionsAre(h, cases[n - 1], n - 1, |cases[n - 1].assertions|, cap);
      assert forall x: Regression :: FailsIn(h, cases[n - 1], x, cap) ==> x.assertionIndex < |cases[n - 1].assertions|;
      hide AllRegressions, CaseRegressions, FailsIn, Closed, CaseInHeap, InListOrder;
      OrderAdds(AllRegressions(h, cases[..n - 1], cap),
                CaseRegressions(h, cases[n - 1], n - 1, |cases[n - 1].assertions|, cap));
    } else {
      AllRegressionsOfNone(h, cases, cap);
    }
  }

  /** The report lists exactly the assertions that do not pass, each once and in order. */
  lemma RegressionsAre(h: Heap, cases: seq<Case>, cap: nat)
    requires Closed(h) && forall k :: 0 <= k < |cases| ==> CaseInHeap(h, cases[k])
    ensures forall x: Regression :: x in AllRegressions(h, cases, cap) <==> Fails(h, cases, x, cap)
    ensures InListOrder(AllRegressions(h, cases, cap))
  {
    FirstRegressionsAre(h, cases, |cases|, cap);
    assert cases[..|cases|] == cases;
    hide AllRegressions, FailsIn, Closed, CaseInHeap;
  }

  // ----- what a path leads to, and what the operators say of it

  /** One step of a path: a key of a dictionary, or a position in a list. */
  ghost predicate StepsTo(h: Heap, v: Value, part: Part, w: Value) {
    && v.Ref? && v.id in h
    && match h[v.id]
       case Dict(_, entries) => TextKey(part.name) in entries && w == entries[TextKey(part.name)]
       case List(items) => part.index.Some? && part.index.value < |items| && w == items[part.index.value]
  }

  ghost predicate LeadsTo(h: Heap, via: seq<Value>, path: seq<Part>) {
    && |via| == |path| + 1
    && forall i :: 0 <= i < |path| ==> StepsTo(h, via[i], path[i], via[i + 1])
  }

  lemma {:induction false} LookupVisits(h: Heap, v: Value, path: seq<Part>) returns (via: seq<Value>)
    requires Closed(h) && InHeap(h, v) && Lookup(h, v, path).Some?
    ensures LeadsTo(h, via, path) && via[0] == v && via[|path|] == Lookup(h, v, path).value
    decreases |path|
  {
    via := [v];
    if path != [] {
      DescendInHeap(h, v, path[0]);
      var next := Descend(h, v, path[0]).value;
      var rest := LookupVisits(h, next, path[1..]);
      hide Lookup, Closed;
      via := [v] + rest;
      assert StepsTo(h, v, path[0], next);
      forall i | 0 <= i < |path| ensures StepsTo(h, via[i], path[i], via[i + 1]) {
        assert i > 0 ==> StepsTo(h, rest[i - 1], path[1..][i - 1], rest[i]);
      }
    }
  }

  lemma {:induction false} VisitedIsLookup(h: Heap, via: seq<Value>, path: seq<Part>)
    requires Closed(h) && LeadsTo(h, via, path) && InHeap(h, via[0])
    ensures Lookup(h, via[0], path) == Some(via[|path|])
    decreases |path|
  {
    if path != [] {
      DescendInHeap(h, via[0], path[0]);
      assert StepsTo(h, via[0], path[0], via[1]);
      assert Descend(h, via[0], path[0]) == Some(via[1]);
      forall i | 0 <= i < |path[1..]| ensures StepsTo(h, via[1..][i], path[1..][i], via[1..][i + 1]) {
        assert StepsTo(h, via[i + 1], path[i + 1], via[i + 2]);
      }
      VisitedIsLookup(h, via[1..], path[1..]);
    }
  }

  /** A path leads to a value exactly if its parts step there one by one. */
  lemma LookupIff(h: Heap, v: Value, path: seq<Part>, w: Value)
    requires Closed(h) && InHeap(h, v)
    ensures Lookup(h, v, path) == Some(w) <==>
            exists via :: LeadsTo(h, via, path) && via[0] == v && via[|path|] == w
  {
    hide Lookup, StepsTo;
    if Lookup(h, v, path) == Some(w) {
      var via := LookupVisits(h, v, path);
    }
    if via :| LeadsTo(h, via, path) && via[0] == v && via[|path|] == w {
      VisitedIsLookup(h, via, path);
    }
  }

  /** `non_empty` passes exactly if the baseline is not empty and the candidate has kept what is there, along every
      path of keys. */
  lemma NonEmptyPassesIff(h: Heap, a: Value, b: Value, cap: nat)
    requires Closed(h) && InHeap(h, a) && InHeap(h, b)
    ensures Passes(h, NonEmpty, Some(a), Some(b), cap) <==> !IsEmpty(h, a) && forall path :: KeptAt(h, a, b, path)
  {
    EmptyIsFalsy(h, a);
    PreservedIffKeptEverywhere(h, a, b);
  }

  lemma ScalarsHold(h: Heap, a: Value, b: Value)
    requires !a.Ref? && !b.Ref?
    ensures Holds(Equality, h, a, b) <==> a == b && a != Float(NaN)
    ensures Holds(Preservation, h, a, b) <==> SameScalarType(a, b) && !IsEmpty(h, b)
    ensures Truthy(h, a) <==> !IsEmpty(h, a)
  {
    EmptyIsFalsy(h, a);
    EmptyIsFalsy(h, b);
    assert Consistent(Equality, h, {}) && Consistent(Preservation, h, {});
    assert Related(Equality, h, {}, a, b) <==> ScalarsAgree(Equality, h, a, b);
    assert Related(Preservation, h, {}, a, b) <==> ScalarsAgree(Preservation, h, a, b);
  }

  /** Scalars pass `equal` exactly if they are the same value, other than not-a-number. */
  lemma EqualScalarsIff(h: Heap, a: Value, b: Value, cap: nat)
    requires !a.Ref? && !b.Ref?
    ensures Passes(h, Equal, Some(a), Some(b), cap) <==> a == b && a != Float(NaN)
  {
    ScalarsHold(h, a, b);
  }

  /** Scalars pass `non_empty` exactly if they are of one type and neither is null, false, zero or blank. */
  lemma NonEmptyScalarsIff(h: Heap, a: Value, b: Value, cap: nat)
    requires !a.Ref? && !b.Ref?
    ensures Passes(h, NonEmpty, Some(a), Some(b), cap) <==>
            match (a, b)
            case (Str(s), Str(t)) => s != [] && t != []
            case (Int(m), Int(n)) => m != 0 && n != 0
            case (Bool(x), Bool(y)) => x && y
            case (Float(x), Float(y)) => x != Finite(0.0) && y != Finite(0.0)
            case (Foreign(x), Foreign(y)) => x == y
            case _ => false
  {
    ScalarsHold(h, a, b);
    hide Holds, Truthy;
  }

  // ----- passing composes

  /** With the middle artifact out of the picture only the comparison cap of `contains_all` can still fail. */
  lemma CompareComposes(h: Heap, operator: Operator, a: Option<Value>, b: Option<Value>, c: Option<Value>, cap: nat)
    requires Closed(h) && InHeapIfFound(h, a) && InHeapIfFound(h, b) && InHeapIfFound(h, c)
    requires Passes(h, operator, a, b, cap) && Passes(h, operator, b, c, cap)
    ensures Passes(h, operator, a, c, cap) <==>
            (operator.ContainsAll? ==> ContainsCost(h, h[a.value.id].items, h[c.value.id].items) <= cap)
  {
    hide Holds, ContainsCost;
    match operator {
      case Equal =>
        HoldsTransitive(Equality, h, a.value, b.value, c.value);
      case ContainsAll =>
        var xs, ys, zs := h[a.value.id].items, h[b.value.id].items, h[c.value.id].items;
        forall i | 0 <= i < |xs| ensures Contains(h, xs[i], zs) {
          var j :| 0 <= j < |ys| && Holds(Equality, h, xs[i], ys[j]);
          assert Contains(h, ys[j], zs);
          var k :| 0 <= k < |zs| && Holds(Equality, h, ys[j], zs[k]);
          HoldsTransitive(Equality, h, xs[i], ys[j], zs[k]);
        }
      case NonEmpty =>
        HoldsTransitive(Preservation, h, a.value, b.value, c.value);
      case Unsupported =>
    }
  }

  lemma IntsHold(h: Heap, m: int, n: int)
    ensures Holds(Equality, h, Int(m), Int(n)) <==> m == n
  {
    assert Consistent(Equality, h, {});
    assert Related(Equality, h, {}, Int(m), Int(m));
  }

  /** Without that proviso composition is false: [1, 1, 1] -> [1] takes 3 comparisons, [1] -> [2, 1] takes 2,
      but [1, 1, 1] -> [2, 1] takes 6. */
  lemma CapCanBlockComposition()
    ensures exists h: Heap, a, b, c ::
              && Closed(h) && InHeap(h, a) && InHeap(h, b) && InHeap(h, c)
              && Passes(h, ContainsAll, Some(a), Some(b), 3) && Passes(h, ContainsAll, Some(b), Some(c), 3)
              && !Passes(h, ContainsAll, Some(a), Some(c), 3)
  {
    var one, two := Int(1), Int(2);
    var h: Heap := map[0 := List([one, one, one]), 1 := List([one]), 2 := List([two, one])];
    assert Closed(h);
    IntsHold(h, 1, 1);
    IntsHold(h, 1, 2);
    hide Holds;
    forall v | v == one ensures SearchCost(h, v, [one]) == 1 && SearchCost(h, v, [two, one]) == 2
      && Contains(h, v, [one]) && Contains(h, v, [two, one])
    {
      assert [one][0] == one && [two, one][1] == one;
      assert [two, one][1..] == [one];
    }
    assert [one, one, one][..2] == [one, one] && [one, one][..1] == [one] && [one][..0] == [];
    assert forall cs :: ContainsCost(h, [one], cs) == SearchCost(h, one, cs);
    assert forall cs :: ContainsCost(h, [one, one], cs) == 2 * SearchCost(h, one, cs);
    assert forall cs :: ContainsCost(h, [one, one, one], cs) == 3 * SearchCost(h, one, cs);
    assert Passes(h, ContainsAll, Some(Ref(0)), Some(Ref(1)), 3);
    assert Passes(h, ContainsAll, Some(Ref(1)), Some(Ref(2)), 3);
    assert !Passes(h, ContainsAll, Some(Ref(0)), Some(Ref(2)), 3);
  }

  ghost predicate SearchWithinCap(h: Heap, c: Case, n: nat, cap: nat)
    requires Closed(h) && CaseInHeap(h, c) && n < |c.assertions|
  {
    var a, b := Lookup(h, c.baseline, c.assertions[n].path), Lookup(h, c.candidate, c.assertions[n].path);
    IsList(h, a) && IsList(h, b) ==> ContainsCost(h, h[a.value.id].items, h[b.value.id].items) <= cap
  }

  /** Every critical `contains_all` search of the case stays within the comparison cap. */
  ghost predicate WithinCap(h: Heap, c: Case, cap: nat)
    requires Closed(h) && CaseInHeap(h, c)
  {
    forall n :: 0 <= n < |c.assertions| && c.assertions[n].critical && c.assertions[n].operator.ContainsAll? ==>
      SearchWithinCap(h, c, n, cap)
  }

  ghost predicate NoCriticalFailure(h: Heap, c: Case, cap: nat)
    requires Closed(h) && CaseInHeap(h, c)
  {
    forall n :: 0 <= n < |c.assertions| ==> !CriticalFailure(h, c, n, cap)
  }

  lemma AssertionComposes(h: Heap, baseline: Value, middle: Value, candidate: Value, policy: seq<Assertion>, n: nat,
                          cap: nat)
    requires Closed(h) && InHeap(h, baseline) && InHeap(h, middle) && InHeap(h, candidate) && n < |policy|
    requires !CriticalFailure(h, Case(baseline, middle, policy), n, cap)
    requires !CriticalFailure(h, Case(middle, candidate, policy), n, cap)
    ensures !CriticalFailure(h, Case(baseline, candidate, policy), n, cap) <==>
            (policy[n].critical && policy[n].operator.ContainsAll? ==>
              SearchWithinCap(h, Case(baseline, candidate, policy), n, cap))
  {
    if policy[n].critical {
      var path := policy[n].path;
      CompareComposes(h, policy[n].operator, Lookup(h, baseline, path), Lookup(h, middle, path),
                      Lookup(h, candidate, path), cap);
    }
  }

  /** For one policy: if baseline -> middle and middle -> candidate pass every critical assertion of a case, then
      baseline -> candidate does exactly if its own critical `contains_all` searches stay within the cap. */
  lemma GatePassingComposes(h: Heap, baseline: Value, middle: Value, candidate: Value, policy: seq<Assertion>, cap: nat)
    requires Closed(h) && InHeap(h, baseline) && InHeap(h, middle) && InHeap(h, candidate)
    requires NoCriticalFailure(h, Case(baseline, middle, policy), cap)
    requires NoCriticalFailure(h, Case(middle, candidate, policy), cap)
    ensures NoCriticalFailure(h, Case(baseline, candidate, policy), cap) <==>
            WithinCap(h, Case(baseline, candidate, policy), cap)
  {
    hide CriticalFailure, SearchWithinCap, Closed;
    forall n | 0 <= n < |policy|
      ensures !CriticalFailure(h, Case(baseline, candidate, policy), n, cap) <==>
              (policy[n].critical && policy[n].operator.ContainsAll? ==>
                SearchWithinCap(h, Case(baseline, candidate, policy), n, cap))
    {
      assert !CriticalFailure(h, Case(baseline, middle, policy), n, cap);
      assert !CriticalFailure(h, Case(middle, candidate, policy), n, cap);
      AssertionComposes(h, baseline, middle, candidate, policy, n, cap);
    }
  }
}
