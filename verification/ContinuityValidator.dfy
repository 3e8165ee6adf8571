/** The continuity gate's structural validator: an explicit-stack walk over a heap that may share and may
    loop, with a set of containers in progress, a cache of subtree heights, a node budget and a capped
    error list.

    Main result: `ValidateJsonCompatible` reports nothing exactly when the value is valid in the recursive
    sense of `JsonHeap.Valid` and the number of slots to visit fits the node budget. */
module ContinuityValidator {
  import opened Wrappers
  import opened JsonHeap

  datatype Step = Field(key: Text) | Index(position: nat)
  type Path = seq<Step>

  datatype Complaint =
    | NodeBudgetExceeded
    | NotAStringKey(at: Path)
    | KeyTooLong(at: Path)
    | KeyNotEncodable(at: Path)
    | IntegerTooLarge(at: Path)
    | TextTooLong(at: Path)
    | TextNotEncodable(at: Path)
    | NotJson(at: Path)
    | TooDeep(at: Path)
    | Cyclic(at: Path)

  datatype Entry = Reported(complaint: Complaint) | Stopped

  // ----- the capped error list

  predicate EndsStopped(items: seq<Entry>) {
    items != [] && items[|items| - 1].Stopped?
  }

  function Appended(items: seq<Entry>, cap: nat, c: Complaint): seq<Entry> {
    if EndsStopped(items) then items
    else
      var longer := if |items| < cap then items + [Reported(c)] else items;
      if |longer| == cap then longer + [Stopped] else longer
  }

  /** Between calls a list is short of the cap, or it is one past the cap and closed off by `Stopped`. */
  predicate Capped(items: seq<Entry>, cap: nat) {
    items == [] || |items| < cap || (|items| == cap + 1 && EndsStopped(items))
  }

  lemma AppendedKeepsCap(items: seq<Entry>, cap: nat, c: Complaint)
    requires Capped(items, cap)
    ensures Capped(Appended(items, cap, c), cap)
    ensures |Appended(items, cap, c)| <= cap + 1
    ensures !EndsStopped(items) ==> |items| < |Appended(items, cap, c)|
  {
  }

  class ValidationErrors {
    const cap: nat
    var items: seq<Entry>

    constructor (cap: nat)
      ensures this.cap == cap && items == []
    {
      this.cap := cap;
      items := [];
    }

    predicate Exhausted()
      reads this
    {
      items != [] && items[|items| - 1].Stopped?
    }

    method Append(c: Complaint)
      modifies this
      ensures items == Appended(old(items), cap, c)
    {
      if Exhausted() {
        return;
      }
      if |items| < cap {
        items := items + [Reported(c)];
      }
      if |items| == cap {
        items := items + [Stopped];
      }
    }
  }

  // ----- stack frames

  datatype Frame =
    | Enter(value: Value, path: Path, depth: nat)
    | IterateDict(id: Id, pos: nat, path: Path, depth: nat)
    | IterateList(id: Id, pos: nat, path: Path, depth: nat)
    | Exit(id: Id, path: Path, depth: nat, errorCount: nat)
  {
    predicate Iterates() { IterateDict? || IterateList? }

    function Subject(): Value {
      if Enter? then value else Ref(id)
    }
  }

  datatype State = State(stack: seq<Frame>, active: set<Id>, heights: map<Id, nat>, errs: seq<Entry>, visited: nat)

  /** Iterator `f` has just handed out `v`. */
  ghost predicate Feeds(h: Heap, f: Frame, v: Value)
    requires Closed(h)
  {
    && f.Iterates() && f.id in h && 0 < f.pos <= h[f.id].Degree()
    && h[f.id].Child(f.pos - 1) == v
  }

  ghost predicate FrameAt(h: Heap, root: Value, stack: seq<Frame>, i: nat)
    requires Closed(h) && i < |stack|
  {
    var f := stack[i];
    && f.depth == i / 2
    && InHeap(h, f.Subject())
    && (f.Iterates() <==> i % 2 == 1)
    && (f.Enter? ==> i == |stack| - 1)
    && (i == 0 ==> f.Subject() == root)
    && (i % 2 == 1 ==>
          && stack[i - 1].Exit? && stack[i - 1].id == f.id && f.pos <= h[f.id].Degree()
          && (f.IterateDict? <==> h[f.id].Dict?))
    && (i > 0 && i % 2 == 0 ==> Feeds(h, stack[i - 1], f.Subject()))
  }

  /** From the bottom up the stack alternates exit and iterate frames, one pair per nesting level. */
  ghost predicate Linked(h: Heap, root: Value, stack: seq<Frame>)
    requires Closed(h)
  {
    forall i :: 0 <= i < |stack| ==> FrameAt(h, root, stack, i)
  }

  ghost function ExitIds(stack: seq<Frame>): set<Id> {
    set f | f in stack && f.Exit? :: f.id
  }

  /** The active set is exactly the containers with a pending exit, each pending once. */
  ghost predicate Tracked(s: State) {
    && s.active == ExitIds(s.stack)
    && (forall i, j :: 0 <= i < j < |s.stack| && s.stack[i].Exit? && s.stack[j].Exit? ==>
        s.stack[i].id != s.stack[j].id)
    && s.active !! s.heights.Keys
  }

  // ----- cached heights

  ghost predicate Cached(heights: map<Id, nat>, v: Value, lim: Limits) {
    if v.Ref? then v.id in heights else ScalarOk(v, lim)
  }

  ghost predicate HeightOk(h: Heap, heights: map<Id, nat>, id: Id, lim: Limits)
    requires Closed(h) && id in heights
  {
    && id in h
    && KeysOk(h[id], lim)
    && (forall q :: 0 <= q < h[id].Degree() ==> Cached(heights, h[id].Child(q), lim))
    && (forall q :: 0 <= q < h[id].Degree() && h[id].Child(q).Ref? ==> heights[h[id].Child(q).id] < heights[id])
    && (heights[id] == 0 || exists q :: 0 <= q < h[id].Degree() && h[id].Child(q).Ref? &&
                                        heights[h[id].Child(q).id] + 1 == heights[id])
  }

  ghost predicate HeightsOk(h: Heap, heights: map<Id, nat>, lim: Limits)
    requires Closed(h)
  {
    forall id :: id in heights ==> HeightOk(h, heights, id, lim)
  }

  /** A cached height decides validity at every level, which is why one visit of a shared container is enough. */
  lemma {:induction false} HeightDecidesValid(h: Heap, heights: map<Id, nat>, id: Id, depth: nat, lim: Limits)
    requires Closed(h) && HeightsOk(h, heights, lim) && id in heights
    ensures id in h
    ensures Valid(h, Ref(id), depth, lim) <==> depth + heights[id] <= lim.depth
    decreases heights[id]
  {
    assert HeightOk(h, heights, id, lim);
    forall q | 0 <= q < h[id].Degree() && h[id].Child(q).Ref?
      ensures Valid(h, h[id].Child(q), depth + 1, lim) <==> depth + 1 + heights[h[id].Child(q).id] <= lim.depth
    {
      HeightDecidesValid(h, heights, h[id].Child(q).id, depth + 1, lim);
    }
  }

  /** The `max(child_heights, default=0)` computed when a container is left. */
  function MaxChildHeight(c: Container, heights: map<Id, nat>, n: nat): (m: nat)
    requires c.WellFormed() && n <= c.Degree()
    requires forall q :: 0 <= q < n && c.Child(q).Ref? ==> c.Child(q).id in heights
    ensures forall q :: 0 <= q < n && c.Child(q).Ref? ==> heights[c.Child(q).id] + 1 <= m
    ensures m == 0 || exists q :: 0 <= q < n && c.Child(q).Ref? && heights[c.Child(q).id] + 1 == m
  {
    if n == 0 then 0
    else
      var rest := MaxChildHeight(c, heights, n - 1);
      var v := c.Child(n - 1);
      if v.Ref? && heights[v.id] + 1 > rest then heights[v.id] + 1 else rest
  }

  // ----- progress of the containers on the stack

  ghost predicate Settled(h: Heap, heights: map<Id, nat>, v: Value, depth: nat, lim: Limits)
    requires Closed(h) && InHeap(h, v)
  {
    (v.Ref? ==> v.id in heights) && Valid(h, v, depth, lim)
  }

  ghost predicate ScannedUpTo(h: Heap, heights: map<Id, nat>, id: Id, n: int, depth: nat, lim: Limits)
    requires Closed(h) && id in h
  {
    forall q :: 0 <= q < n && q < h[id].Degree() ==>
      KeyOk(h[id], q, lim) && Settled(h, heights, h[id].Child(q), depth + 1, lim)
  }

  /** How many children of the container at exit frame `i` are finished: one handed out whose own frame is
      still above does not count. */
  ghost function Finished(h: Heap, stack: seq<Frame>, i: nat): int
    requires i < |stack| && stack[i].Exit? && stack[i].id in h
  {
    if i + 1 < |stack| && stack[i + 1].Iterates() then
      if i + 2 < |stack| then stack[i + 1].pos - 1 else stack[i + 1].pos
    else h[stack[i].id].Degree()
  }

  /** A container entered since the last complaint has only settled children behind its iterator. */
  ghost predicate ProgressAt(h: Heap, lim: Limits, stack: seq<Frame>, heights: map<Id, nat>, errs: nat, i: nat)
    requires Closed(h) && i < |stack|
  {
    var f := stack[i];
    f.Exit? ==>
      && f.id in h
      && f.depth <= lim.depth
      && f.errorCount <= errs
      && (i >= 2 && stack[i - 2].Exit? ==> stack[i - 2].errorCount <= f.errorCount)
      && (i + 2 < |stack| && stack[i + 1].Iterates() && 0 < stack[i + 1].pos <= h[f.id].Degree() ==>
            KeyOk(h[f.id], stack[i + 1].pos - 1, lim))
      && (f.errorCount == errs ==> ScannedUpTo(h, heights, f.id, Finished(h, stack, i), f.depth, lim))
  }

  ghost predicate Progress(h: Heap, lim: Limits, stack: seq<Frame>, heights: map<Id, nat>, errs: nat)
    requires Closed(h)
  {
    forall i :: 0 <= i < |stack| ==> ProgressAt(h, lim, stack, heights, errs, i)
  }

  // ----- the loop invariant

  ghost predicate Accepts(h: Heap, root: Value, lim: Limits)
    requires Closed(h) && InHeap(h, root)
  {
    Valid(h, root, 0, lim) && 1 + Slots(h, Reach(h, root)) <= lim.nodes
  }

  /** Slots still to be visited from the frames on the stack. */
  ghost function Pending(h: Heap, stack: seq<Frame>): int {
    if stack == [] then 0
    else
      var f := stack[|stack| - 1];
      Pending(h, stack[..|stack| - 1]) +
      (if f.Enter? then 1 else if f.Iterates() && f.id in h then h[f.id].Degree() - f.pos else 0)
  }

  /** The iterator positions left on the stack: what shrinks when no value is entered. */
  ghost function Waiting(h: Heap, stack: seq<Frame>): int {
    Pending(h, stack) - (if stack != [] && stack[|stack| - 1].Enter? then 1 else 0)
  }

  /** While nothing is reported, every visit is accounted for by a slot of a container already entered. */
  ghost predicate Accounted(h: Heap, root: Value, s: State)
    requires Closed(h) && InHeap(h, root)
  {
    && s.active + s.heights.Keys <= Reach(h, root)
    && (s.errs == [] ==> s.visited + Pending(h, s.stack) == 1 + Slots(h, s.active + s.heights.Keys))
  }

  ghost predicate Inv(h: Heap, root: Value, lim: Limits, s: State)
    requires Closed(h) && InHeap(h, root)
  {
    && Linked(h, root, s.stack)
    && Tracked(s)
    && HeightsOk(h, s.heights, lim)
    && Progress(h, lim, s.stack, s.heights, |s.errs|)
    && Accounted(h, root, s)
    && s.visited <= lim.nodes
    && Capped(s.errs, lim.errors)
    && (s.errs != [] ==> !Accepts(h, root, lim))
    && (s.stack == [] && s.errs == [] ==> Settled(h, s.heights, root, 0, lim))
  }

  // ----- consequences of the stack's shape

  lemma {:induction false} FramesValid(h: Heap, root: Value, lim: Limits, stack: seq<Frame>, i: nat)
    requires Closed(h) && InHeap(h, root) && Linked(h, root, stack) && i < |stack|
    requires Valid(h, root, 0, lim)
    ensures InHeap(h, stack[i].Subject()) && Valid(h, stack[i].Subject(), i / 2, lim)
  {
    assert FrameAt(h, root, stack, i);
    if i > 0 {
      FramesValid(h, root, lim, stack, i - 1);
      assert FrameAt(h, root, stack, i - 1);
    }
  }

  /** Between two levels of the stack runs a path of the heap. */
  lemma {:induction false} StackPath(h: Heap, root: Value, stack: seq<Frame>, i: nat, j: nat) returns (p: seq<nat>)
    requires Closed(h) && Linked(h, root, stack) && i <= j < |stack|
    ensures InHeap(h, stack[i].Subject()) && At(h, stack[i].Subject(), p) == Some(stack[j].Subject())
    ensures |p| >= j / 2 - i / 2
  {
    assert FrameAt(h, root, stack, i);
    if i == j {
      p := [];
    } else {
      p := StackPath(h, root, stack, i, j - 1);
      assert FrameAt(h, root, stack, j) && FrameAt(h, root, stack, j - 1);
      if j % 2 == 0 {
        var f := stack[j - 1];
        AtConcat(h, stack[i].Subject(), p, [f.pos - 1]);
        assert At(h, Ref(f.id), [f.pos - 1]) == At(h, h[f.id].Child(f.pos - 1), []);
        p := p + [f.pos - 1];
      }
    }
  }

  /** Entering a container already in progress means the graph loops, so nothing on the stack is valid. */
  lemma ActiveMeansCycle(h: Heap, root: Value, lim: Limits, s: State)
    requires Closed(h) && InHeap(h, root) && Linked(h, root, s.stack) && Tracked(s)
    requires s.stack != [] && s.stack[|s.stack| - 1].Enter?
    requires s.stack[|s.stack| - 1].value.Ref? && s.stack[|s.stack| - 1].value.id in s.active
    ensures !Valid(h, root, 0, lim)
  {
    var top := |s.stack| - 1;
    var id := s.stack[top].value.id;
    var f :| f in s.stack && f.Exit? && f.id == id;
    var i :| 0 <= i < |s.stack| && s.stack[i] == f;
    assert FrameAt(h, root, s.stack, i) && FrameAt(h, root, s.stack, top);
    var p := StackPath(h, root, s.stack, i, top);
    if Valid(h, root, 0, lim) {
      FramesValid(h, root, lim, s.stack, i);
      CycleNeverValid(h, id, i / 2, lim, p);
    }
  }

  // ----- each kind of step keeps the invariant

  lemma PushFacts(h: Heap, stack: seq<Frame>, f: Frame)
    ensures ExitIds(stack + [f]) == ExitIds(stack) + (if f.Exit? then {f.id} else {})
    ensures Pending(h, stack + [f]) == Pending(h, stack) +
              (if f.Enter? then 1 else if f.Iterates() && f.id in h then h[f.id].Degree() - f.pos else 0)
  {
    assert (stack + [f])[..|stack|] == stack;
  }

  lemma PopKeepsLinks(h: Heap, root: Value, stack: seq<Frame>, rest: seq<Frame>, top: Frame)
    requires Closed(h) && Linked(h, root, stack) && stack == rest + [top]
    ensures Linked(h, root, rest) && FrameAt(h, root, stack, |rest|)
  {
    assert FrameAt(h, root, stack, |rest|);
    forall i | 0 <= i < |rest| ensures FrameAt(h, root, rest, i) {
      assert FrameAt(h, root, stack, i);
    }
  }

  /** When the top frame goes and its subject is settled, the container below it is one child further. */
  lemma PopProgress(h: Heap, root: Value, lim: Limits, rest: seq<Frame>, top: Frame,
                    heights: map<Id, nat>, heights': map<Id, nat>, errs: nat)
    requires Closed(h) && InHeap(h, top.Subject())
    requires Linked(h, root, rest + [top]) && Progress(h, lim, rest + [top], heights, errs)
    requires heights.Keys <= heights'.Keys
    requires top.Iterates() ==> top.pos >= h[top.id].Degree()
    requires !top.Iterates() ==>
               Settled(h, heights', top.Subject(), top.depth, lim) || (top.Exit? && top.errorCount != errs)
    ensures Progress(h, lim, rest, heights', errs)
  {
    forall i | 0 <= i < |rest| ensures ProgressAt(h, lim, rest, heights', errs, i) {
      PopProgressAt(h, root, lim, rest, top, heights, heights', errs, i);
    }
  }

  lemma PopProgressAt(h: Heap, root: Value, lim: Limits, rest: seq<Frame>, top: Frame,
                      heights: map<Id, nat>, heights': map<Id, nat>, errs: nat, i: nat)
    requires Closed(h) && InHeap(h, top.Subject()) && i < |rest|
    requires Linked(h, root, rest + [top]) && Progress(h, lim, rest + [top], heights, errs)
    requires heights.Keys <= heights'.Keys
    requires top.Iterates() ==> top.pos >= h[top.id].Degree()
    requires !top.Iterates() ==>
               Settled(h, heights', top.Subject(), top.depth, lim) || (top.Exit? && top.errorCount != errs)
    ensures ProgressAt(h, lim, rest, heights', errs, i)
  {
    var stack, n, f := rest + [top], |rest|, rest[i];
    assert FrameAt(h, root, stack, i) && FrameAt(h, root, stack, i + 1) && FrameAt(h, root, stack, n);
    assert ProgressAt(h, lim, stack, heights, errs, i) && ProgressAt(h, lim, stack, heights, errs, n);
    hide Linked, Progress, Valid;
    if f.Exit? && f.errorCount == errs {
      assert i + 2 == n ==> Feeds(h, stack[n - 1], top.Subject());
      assert ScannedUpTo(h, heights', f.id, Finished(h, rest, i), f.depth, lim);
    }
  }

  /** Two new frames in place of an entered container: the container below still waits for that child. */
  lemma ExpandProgress(h: Heap, root: Value, lim: Limits, rest: seq<Frame>, top: Frame, leave: Frame, walk: Frame,
                       heights: map<Id, nat>, errs: nat)
    requires Closed(h) && Linked(h, root, rest + [top]) && Linked(h, root, rest + [leave] + [walk])
    requires Progress(h, lim, rest + [top], heights, errs)
    requires top.Enter? && leave.Exit? && walk.Iterates() && walk.pos == 0
    requires leave.errorCount == errs && leave.depth <= lim.depth
    ensures Progress(h, lim, rest + [leave] + [walk], heights, errs)
  {
    var stack, pushed := rest + [top], rest + [leave] + [walk];
    var n := |rest|;
    assert FrameAt(h, root, stack, n) && FrameAt(h, root, pushed, n);
    forall i | 0 <= i < |pushed| ensures ProgressAt(h, lim, pushed, heights, errs, i) {
      if i < n {
        assert ProgressAt(h, lim, stack, heights, errs, i);
      } else if i == n >= 2 {
        assert ProgressAt(h, lim, stack, heights, errs, n - 2);
      }
    }
  }

  /** Handing out a child advances the iterator and leaves the same children finished. */
  lemma NextProgress(h: Heap, root: Value, lim: Limits, rest: seq<Frame>, top: Frame, walk: Frame, enter: Frame,
                     heights: map<Id, nat>, errs: nat)
    requires Closed(h) && Linked(h, root, rest + [top]) && Linked(h, root, rest + [walk] + [enter])
    requires Progress(h, lim, rest + [top], heights, errs)
    requires top.Iterates() && walk.Iterates() && enter.Enter? && walk.pos == top.pos + 1
    requires walk.id == top.id && top.id in h && top.pos < h[top.id].Degree() && KeyOk(h[top.id], top.pos, lim)
    ensures Progress(h, lim, rest + [walk] + [enter], heights, errs)
  {
    var stack, pushed := rest + [top], rest + [walk] + [enter];
    assert FrameAt(h, root, stack, |rest|);
    forall i | 0 <= i < |pushed| ensures ProgressAt(h, lim, pushed, heights, errs, i) {
      if i < |rest| {
        assert ProgressAt(h, lim, stack, heights, errs, i);
      }
    }
  }

  /** A complaint settles the verdict; the containers in progress no longer have to be clean. */
  lemma ComplaintKeepsInv(h: Heap, root: Value, lim: Limits, s: State, stack': seq<Frame>, visited': nat, c: Complaint)
    requires Closed(h) && InHeap(h, root) && Inv(h, root, lim, s)
    requires !EndsStopped(s.errs) && !Accepts(h, root, lim) && visited' <= lim.nodes
    requires Linked(h, root, stack') && |stack'| <= |s.stack|
    requires forall i :: 0 <= i < |stack'| && (i + 1 < |stack'| || stack'[i].Exit?) ==> stack'[i] == s.stack[i]
    requires ExitIds(stack') == ExitIds(s.stack)
    ensures Inv(h, root, lim, State(stack', s.active, s.heights, Appended(s.errs, lim.errors, c), visited'))
  {
    AppendedKeepsCap(s.errs, lim.errors, c);
    var errs' := Appended(s.errs, lim.errors, c);
    forall i | 0 <= i < |stack'| ensures ProgressAt(h, lim, stack', s.heights, |errs'|, i) {
      assert ProgressAt(h, lim, s.stack, s.heights, |s.errs|, i);
    }
  }

  /** The value entered last is fine without being walked: a good scalar, or a container whose cached height
      fits below this level. */
  lemma SettleKeepsInv(h: Heap, root: Value, lim: Limits, s: State, rest: seq<Frame>, top: Frame)
    requires Closed(h) && InHeap(h, root) && Inv(h, root, lim, s)
    requires top.Enter? && s.stack == rest + [top] && s.visited < lim.nodes
    requires Cached(s.heights, top.value, lim)
    requires top.value.Ref? ==> top.depth + s.heights[top.value.id] <= lim.depth
    ensures Inv(h, root, lim, s.(stack := rest, visited := s.visited + 1))
  {
    PushFacts(h, rest, top);
    PopKeepsLinks(h, root, s.stack, rest, top);
    assert Settled(h, s.heights, top.value, top.depth, lim) by {
      if top.value.Ref? {
        HeightDecidesValid(h, s.heights, top.value.id, top.depth, lim);
      }
    }
    PopProgress(h, root, lim, rest, top, s.heights, s.heights, |s.errs|);
    var s' := s.(stack := rest, visited := s.visited + 1);
    assert Tracked(s');
    assert Accounted(h, root, s');
    assert rest == [] ==> top.value == root && top.depth == 0;
    assert rest == [] ==> Settled(h, s.heights, root, 0, lim);
  }

  /** A fresh container goes in progress. */
  lemma ExpandKeepsInv(h: Heap, root: Value, lim: Limits, s: State, rest: seq<Frame>, top: Frame, walk: Frame)
    requires Closed(h) && InHeap(h, root) && Inv(h, root, lim, s)
    requires top.Enter? && top.value.Ref? && s.stack == rest + [top] && s.visited < lim.nodes
    requires top.value.id !in s.active && top.value.id !in s.heights && top.depth <= lim.depth
    requires walk.Iterates() && walk.id == top.value.id && walk.pos == 0 && walk.depth == top.depth
    requires top.value.id in h ==> (walk.IterateDict? <==> h[top.value.id].Dict?)
    ensures var pushed := rest + [Exit(top.value.id, top.path, top.depth, |s.errs|)] + [walk];
            Inv(h, root, lim, State(pushed, s.active + {top.value.id}, s.heights, s.errs, s.visited + 1))
  {
    var id := top.value.id;
    var leave := Exit(id, top.path, top.depth, |s.errs|);
    var pushed := rest + [leave] + [walk];
    var s' := State(pushed, s.active + {id}, s.heights, s.errs, s.visited + 1);
    PushFacts(h, rest, top);
    PushFacts(h, rest, leave);
    PushFacts(h, rest + [leave], walk);
    ExpandLinks(h, root, rest, top, leave, walk);
    ExpandTracked(s, rest, top, s');
    EnteredReachable(h, root, s, |rest|);
    ExpandSlots(h, s.active, s.heights.Keys, id);
    ExpandProgress(h, root, lim, rest, top, leave, walk, s.heights, |s.errs|);
  }

  lemma ExpandLinks(h: Heap, root: Value, rest: seq<Frame>, top: Frame, leave: Frame, walk: Frame)
    requires Closed(h) && Linked(h, root, rest + [top])
    requires top.Enter? && leave.Exit? && walk.Iterates() && top.value == Ref(leave.id) && walk.id == leave.id
    requires top.depth == leave.depth == walk.depth && walk.pos == 0
    requires leave.id in h ==> (walk.IterateDict? <==> h[leave.id].Dict?)
    ensures leave.id in h && Linked(h, root, rest + [leave] + [walk])
  {
    var stack, pushed := rest + [top], rest + [leave] + [walk];
    assert FrameAt(h, root, stack, |rest|);
    forall i | 0 <= i < |pushed| ensures FrameAt(h, root, pushed, i) {
      assert i < |rest| ==> FrameAt(h, root, stack, i);
    }
  }

  lemma ExpandSlots(h: Heap, active: set<Id>, done: set<Id>, id: Id)
    requires active + done <= h.Keys && id in h && id !in active && id !in done
    ensures Slots(h, (active + {id}) + done) == h[id].Degree() + Slots(h, active + done)
  {
    SlotsRemove(h, (active + {id}) + done, id);
    assert ((active + {id}) + done) - {id} == active + done;
  }

  lemma ExpandTracked(s: State, rest: seq<Frame>, top: Frame, s': State)
    requires Tracked(s) && top.Enter? && top.value.Ref? && s.stack == rest + [top]
    requires |s'.stack| == |rest| + 2 && s'.stack[..|rest|] == rest
    requires s'.stack[|rest|].Exit? && s'.stack[|rest|].id == top.value.id && s'.stack[|rest| + 1].Iterates()
    requires s'.active == s.active + {top.value.id} == ExitIds(s'.stack) && s'.heights == s.heights
    requires top.value.id !in s.active && top.value.id !in s.heights
    ensures Tracked(s')
  {
    forall i, j | 0 <= i < j < |s'.stack| && s'.stack[i].Exit? && s'.stack[j].Exit?
      ensures s'.stack[i].id != s'.stack[j].id
    {
      assert s'.stack[i] == rest[i] == s.stack[i];
      if j < |rest| {
        assert s'.stack[j] == rest[j] == s.stack[j];
      } else {
        assert s.stack[i] in s.stack;
        assert s.stack[i].id in ExitIds(s.stack);
      }
    }
  }

  /** Every container met on the stack is reachable from the root. */
  lemma EnteredReachable(h: Heap, root: Value, s: State, i: nat)
    requires Closed(h) && InHeap(h, root) && Linked(h, root, s.stack) && i < |s.stack|
    ensures s.stack[i].Subject().Ref? ==> s.stack[i].Subject().id in Reach(h, root)
  {
    assert FrameAt(h, root, s.stack, 0) && FrameAt(h, root, s.stack, i);
    var p := StackPath(h, root, s.stack, 0, i);
  }

  /** The iterator hands out its next child, whose key is fine. */
  lemma NextKeepsInv(h: Heap, root: Value, lim: Limits, s: State, rest: seq<Frame>, top: Frame, walk: Frame,
                     enter: Frame)
    requires Closed(h) && InHeap(h, root) && Inv(h, root, lim, s)
    requires top.Iterates() && s.stack == rest + [top] && top.id in h
    requires top.pos < h[top.id].Degree() && KeyOk(h[top.id], top.pos, lim)
    requires walk.Iterates() && (walk.IterateDict? <==> top.IterateDict?)
    requires walk.id == top.id && walk.pos == top.pos + 1 && walk.depth == top.depth
    requires enter.Enter? && enter.value == h[top.id].Child(top.pos) && enter.depth == top.depth + 1
    ensures Inv(h, root, lim, s.(stack := rest + [walk] + [enter]))
    ensures 0 <= Waiting(h, rest + [walk] + [enter]) < Waiting(h, s.stack)
  {
    hide Linked, Valid, Reach, Slots, HeightsOk, Progress;
    PendingNonNegative(h, root, s.stack, |rest|);
    PushFacts(h, rest, top);
    PushFacts(h, rest, walk);
    PushFacts(h, rest + [walk], enter);
    NextLinks(h, root, rest, top, walk, enter);
    NextProgress(h, root, lim, rest, top, walk, enter, s.heights, |s.errs|);
    NextTracked(s, rest, top, rest + [walk] + [enter]);
  }

  lemma NextLinks(h: Heap, root: Value, rest: seq<Frame>, top: Frame, walk: Frame, enter: Frame)
    requires Closed(h) && Linked(h, root, rest + [top])
    requires top.Iterates() && top.id in h && top.pos < h[top.id].Degree()
    requires walk.Iterates() && (walk.IterateDict? <==> top.IterateDict?)
    requires walk.id == top.id && walk.pos == top.pos + 1 && walk.depth == top.depth
    requires enter.Enter? && enter.value == h[top.id].Child(top.pos) && enter.depth == top.depth + 1
    ensures Linked(h, root, rest + [walk] + [enter])
  {
    AdvanceKeepsLinks(h, root, rest + [top], rest, top, walk);
    var pushed := rest + [walk] + [enter];
    forall i | 0 <= i < |pushed| ensures FrameAt(h, root, pushed, i) {
      assert FrameAt(h, root, rest + [walk], |rest|);
      assert i < |rest| ==> FrameAt(h, root, rest + [walk], i);
    }
  }

  lemma AdvanceKeepsLinks(h: Heap, root: Value, stack: seq<Frame>, rest: seq<Frame>, top: Frame, walk: Frame)
    requires Closed(h) && Linked(h, root, stack) && stack == rest + [top]
    requires top.Iterates() && walk.Iterates() && (walk.IterateDict? <==> top.IterateDict?)
    requires walk.id == top.id && walk.pos == top.pos + 1 && walk.depth == top.depth
    requires top.id in h ==> top.pos < h[top.id].Degree()
    ensures Linked(h, root, rest + [walk])
  {
    assert FrameAt(h, root, stack, |rest|);
    forall i | 0 <= i < |rest + [walk]| ensures FrameAt(h, root, rest + [walk], i) {
      assert FrameAt(h, root, stack, i);
    }
  }

  lemma NextTracked(s: State, rest: seq<Frame>, top: Frame, pushed: seq<Frame>)
    requires Tracked(s) && s.stack == rest + [top] && !top.Exit?
    requires |rest| <= |pushed| && pushed[..|rest|] == rest && ExitIds(pushed) == ExitIds(rest) == ExitIds(s.stack)
    requires forall i :: |rest| <= i < |pushed| ==> !pushed[i].Exit?
    ensures Tracked(s.(stack := pushed))
  {
    assert forall i :: 0 <= i < |rest| ==> pushed[i] == pushed[..|rest|][i] == rest[i] == s.stack[i];
  }

  /** The iterator is exhausted: its exit frame comes to the top. */
  lemma ExhaustedKeepsInv(h: Heap, root: Value, lim: Limits, s: State, rest: seq<Frame>, top: Frame)
    requires Closed(h) && InHeap(h, root) && Inv(h, root, lim, s)
    requires top.Iterates() && s.stack == rest + [top] && top.id in h && top.pos >= h[top.id].Degree()
    ensures Inv(h, root, lim, s.(stack := rest))
    ensures Waiting(h, rest) == Waiting(h, s.stack)
  {
    assert FrameAt(h, root, s.stack, |rest|);
    assert rest != [] ==> FrameAt(h, root, s.stack, |rest| - 1);
    PushFacts(h, rest, top);
    PopKeepsLinks(h, root, s.stack, rest, top);
    PopProgress(h, root, lim, rest, top, s.heights, s.heights, |s.errs|);
    NextTracked(s, rest, top, rest);
  }

  /** At a clean exit every child has a cached height, and the container is valid at its level. */
  lemma CleanExit(h: Heap, root: Value, lim: Limits, s: State, rest: seq<Frame>, top: Frame)
    requires Closed(h) && InHeap(h, root) && s.stack == rest + [top]
    requires Linked(h, root, s.stack) && Progress(h, lim, s.stack, s.heights, |s.errs|) && Tracked(s)
    requires top.Exit? && top.errorCount == |s.errs|
    ensures top.id in h && top.id !in s.heights
    ensures forall q :: 0 <= q < h[top.id].Degree() ==> Cached(s.heights, h[top.id].Child(q), lim)
    ensures forall q :: 0 <= q < h[top.id].Degree() && h[top.id].Child(q).Ref? ==> h[top.id].Child(q).id in s.heights
    ensures KeysOk(h[top.id], lim) && Valid(h, Ref(top.id), top.depth, lim)
  {
    assert ProgressAt(h, lim, s.stack, s.heights, |s.errs|, |rest|) && FrameAt(h, root, s.stack, |rest|);
    assert ScannedUpTo(h, s.heights, top.id, h[top.id].Degree(), top.depth, lim);
    assert top in s.stack;
    assert top.id in ExitIds(s.stack);
    forall q | 0 <= q < h[top.id].Degree()
      ensures Cached(s.heights, h[top.id].Child(q), lim) && Valid(h, h[top.id].Child(q), top.depth + 1, lim)
    {
      assert KeyOk(h[top.id], q, lim) && Settled(h, s.heights, h[top.id].Child(q), top.depth + 1, lim);
    }
  }

  lemma CachingKeepsHeights(h: Heap, heights: map<Id, nat>, id: Id, lim: Limits, height: nat)
    requires Closed(h) && HeightsOk(h, heights, lim) && id in h && id !in heights && KeysOk(h[id], lim)
    requires forall q :: 0 <= q < h[id].Degree() ==> Cached(heights, h[id].Child(q), lim)
    requires forall q :: 0 <= q < h[id].Degree() && h[id].Child(q).Ref? ==> h[id].Child(q).id in heights
    requires height == MaxChildHeight(h[id], heights, h[id].Degree())
    ensures HeightsOk(h, heights[id := height], lim)
  {
  }

  lemma LeaveTracked(s: State, rest: seq<Frame>, top: Frame, heights': map<Id, nat>)
    requires Tracked(s) && s.stack == rest + [top] && top.Exit?
    requires ExitIds(s.stack) == ExitIds(rest) + {top.id}
    requires heights'.Keys <= s.heights.Keys + {top.id}
    ensures Tracked(State(rest, s.active - {top.id}, heights', s.errs, s.visited)) && top.id in s.active
  {
    assert s.stack[|rest|] == top;
    assert forall i :: 0 <= i < |rest| ==> rest[i] == s.stack[i];
    assert forall f :: f in rest && f.Exit? ==> f.id != top.id;
  }

  /** A container is left: it is cached if nothing was reported inside it, and only dropped otherwise. */
  lemma ExitKeepsInv(h: Heap, root: Value, lim: Limits, s: State, rest: seq<Frame>, top: Frame, heights': map<Id, nat>)
    requires Closed(h) && InHeap(h, root) && Inv(h, root, lim, s)
    requires top.Exit? && s.stack == rest + [top]
    requires heights'.Keys == s.heights.Keys + (if top.errorCount == |s.errs| then {top.id} else {})
    requires HeightsOk(h, heights', lim)
    ensures Inv(h, root, lim, State(rest, s.active - {top.id}, heights', s.errs, s.visited))
    ensures Waiting(h, rest) == Waiting(h, s.stack)
  {
    hide Valid, Reach, Slots, HeightsOk, Tracked;
    assert rest != [] ==> FrameAt(h, root, s.stack, |rest| - 1);
    PushFacts(h, rest, top);
    PopKeepsLinks(h, root, s.stack, rest, top);
    LeaveTracked(s, rest, top, heights');
    if top.errorCount == |s.errs| {
      CleanExit(h, root, lim, s, rest, top);
    }
    PopProgress(h, root, lim, rest, top, s.heights, heights', |s.errs|);
    assert ProgressAt(h, lim, s.stack, s.heights, |s.errs|, |rest|);
    assert rest == [] ==> Ref(top.id) == root && top.depth == 0;
    assert s.errs == [] ==> top.errorCount == |s.errs|;
    assert rest == [] && s.errs == [] ==> Settled(h, heights', root, 0, lim);
    assert s.errs == [] ==> (s.active - {top.id}) + heights'.Keys == s.active + s.heights.Keys;
  }

  // ----- complaints are justified

  lemma TooManyVisits(h: Heap, root: Value, lim: Limits, s: State)
    requires Closed(h) && InHeap(h, root) && Inv(h, root, lim, s)
    requires s.stack != [] && s.stack[|s.stack| - 1].Enter? && s.visited == lim.nodes
    ensures !Accepts(h, root, lim)
  {
    if s.errs == [] {
      PendingNonNegative(h, root, s.stack, |s.stack| - 1);
      SlotsMonotone(h, s.active + s.heights.Keys, Reach(h, root));
    }
  }

  lemma {:induction false} PendingNonNegative(h: Heap, root: Value, stack: seq<Frame>, n: nat)
    requires Closed(h) && Linked(h, root, stack) && n <= |stack|
    ensures Pending(h, stack[..n]) >= 0
  {
    if n > 0 {
      assert FrameAt(h, root, stack, n - 1);
      assert stack[..n] == stack[..n - 1] + [stack[n - 1]];
      PendingNonNegative(h, root, stack, n - 1);
    }
  }

  /** Each complaint about an entered value points at something the recursive definition rejects. */
  lemma BadEntry(h: Heap, root: Value, lim: Limits, s: State, rest: seq<Frame>, top: Frame)
    requires Closed(h) && InHeap(h, root) && Inv(h, root, lim, s)
    requires top.Enter? && s.stack == rest + [top]
    requires
      if top.value.Ref? then
        || top.depth > lim.depth
        || top.value.id in s.active
        || (top.value.id in s.heights && top.depth + s.heights[top.value.id] > lim.depth)
      else !ScalarOk(top.value, lim)
    ensures !Accepts(h, root, lim)
  {
    assert FrameAt(h, root, s.stack, |rest|) && s.stack[|rest|] == top;
    if Valid(h, root, 0, lim) {
      FramesValid(h, root, lim, s.stack, |rest|);
      if top.value.Ref? && top.value.id in s.active {
        ActiveMeansCycle(h, root, lim, s);
      } else if top.value.Ref? && top.value.id in s.heights {
        HeightDecidesValid(h, s.heights, top.value.id, top.depth, lim);
      }
    }
  }

  lemma BadKey(h: Heap, root: Value, lim: Limits, s: State, rest: seq<Frame>, top: Frame)
    requires Closed(h) && InHeap(h, root) && Inv(h, root, lim, s)
    requires top.Iterates() && s.stack == rest + [top] && top.id in h
    requires top.pos < h[top.id].Degree() && !KeyOk(h[top.id], top.pos, lim)
    ensures !Accepts(h, root, lim)
  {
    assert FrameAt(h, root, s.stack, |rest|) && s.stack[|rest|] == top;
    if Valid(h, root, 0, lim) {
      FramesValid(h, root, lim, s.stack, |rest|);
    }
  }

  lemma EntryComplaint(h: Heap, root: Value, lim: Limits, s: State, rest: seq<Frame>, top: Frame, c: Complaint)
    requires Closed(h) && InHeap(h, root) && Inv(h, root, lim, s)
    requires top.Enter? && s.stack == rest + [top] && s.visited < lim.nodes
    requires !EndsStopped(s.errs) && !Accepts(h, root, lim)
    ensures Inv(h, root, lim, State(rest, s.active, s.heights, Appended(s.errs, lim.errors, c), s.visited + 1))
  {
    PushFacts(h, rest, top);
    PopKeepsLinks(h, root, s.stack, rest, top);
    ComplaintKeepsInv(h, root, lim, s, rest, s.visited + 1, c);
  }

  lemma KeyComplaint(h: Heap, root: Value, lim: Limits, s: State, rest: seq<Frame>, top: Frame, walk: Frame,
                     c: Complaint)
    requires Closed(h) && InHeap(h, root) && Inv(h, root, lim, s)
    requires top.IterateDict? && walk == IterateDict(top.id, top.pos + 1, top.path, top.depth)
               && s.stack == rest + [top] && top.id in h
    requires top.pos < h[top.id].Degree() && !KeyOk(h[top.id], top.pos, lim)
    requires !EndsStopped(s.errs)
    ensures Inv(h, root, lim, State(rest + [walk], s.active, s.heights, Appended(s.errs, lim.errors, c), s.visited))
    ensures 0 <= Waiting(h, rest + [walk]) < Waiting(h, s.stack)
  {
    PendingNonNegative(h, root, s.stack, |rest|);
    PushFacts(h, rest, top);
    PushFacts(h, rest, walk);
    AdvanceKeepsLinks(h, root, s.stack, rest, top, walk);
    BadKey(h, root, lim, s, rest, top);
    ComplaintKeepsInv(h, root, lim, s, rest + [walk], s.visited, c);
  }

  /** An empty stack and no complaint: everything reachable was entered once and the visits add up. */
  lemma NothingReportedMeansAccepted(h: Heap, root: Value, lim: Limits, s: State)
    requires Closed(h) && InHeap(h, root) && Inv(h, root, lim, s)
    requires s.stack == [] && s.errs == []
    ensures Accepts(h, root, lim)
  {
    forall id | id in s.heights ensures id in h {
      assert HeightOk(h, s.heights, id, lim);
    }
    forall id, q | id in s.heights && 0 <= q < h[id].Degree() && h[id].Child(q).Ref?
      ensures h[id].Child(q).id in s.heights
    {
      assert HeightOk(h, s.heights, id, lim);
      assert Cached(s.heights, h[id].Child(q), lim);
    }
    ReachSubset(h, root, s.heights.Keys);
    assert s.active + s.heights.Keys == Reach(h, root);
  }

  // ----- the validator

  function ScalarComplaint(value: Value, path: Path, lim: Limits): (c: Option<Complaint>)
    requires !value.Ref?
    ensures c == None <==> ScalarOk(value, lim)
  {
    match value
    case Null => None
    case Bool(_) => None
    case Int(n) => if BitLength(n) > lim.bits then Some(IntegerTooLarge(path)) else None
    case Str(text) =>
      if |text| > lim.text then Some(TextTooLong(path))
      else if !Encodable(text) then Some(TextNotEncodable(path)) else None
    case Float(f) => if !f.Finite? then Some(NotJson(path)) else None
    case Foreign(_) => Some(NotJson(path))
  }

  function KeyFault(key: Key, path: Path, lim: Limits): (c: Option<Complaint>)
    ensures c == None <==> key.TextKey? && |key.text| <= lim.key && Encodable(key.text)
  {
    if !key.TextKey? then Some(NotAStringKey(path))
    else if |key.text| > lim.key then Some(KeyTooLong(path))
    else if !Encodable(key.text) then Some(KeyNotEncodable(path)) else None
  }

  lemma StartInv(h: Heap, root: Value, lim: Limits)
    requires Closed(h) && InHeap(h, root)
    ensures Inv(h, root, lim, State([Enter(root, [], 0)], {}, map[], [], 0))
  {
  }

  lemma TopInHeap(h: Heap, root: Value, lim: Limits, s: State, rest: seq<Frame>, top: Frame)
    requires Closed(h) && InHeap(h, root) && Inv(h, root, lim, s) && s.stack == rest + [top]
    ensures InHeap(h, top.Subject())
    ensures top.Iterates() ==> top.pos <= h[top.id].Degree() && (top.IterateDict? <==> h[top.id].Dict?)
    ensures top.Exit? ==> top.id in s.active
  {
    assert FrameAt(h, root, s.stack, |rest|);
    assert s.stack[|rest|] == top;
    assert top.Exit? ==> top in s.stack;
  }

  method ValidateJsonCompatible(h: Heap, root: Value, lim: Limits) returns (errors: seq<Entry>)
    requires Closed(h) && InHeap(h, root)
    ensures errors == [] <==> Valid(h, root, 0, lim) && 1 + Slots(h, Reach(h, root)) <= lim.nodes
    ensures |errors| <= lim.errors + 1
    ensures |errors| == lim.errors + 1 ==> errors[lim.errors] == Stopped
  {
    hide Linked, Tracked, HeightsOk, Progress, Accounted, Valid, Reach, Slots, At;
    var log := new ValidationErrors(lim.errors);
    var active: set<Id> := {};
    var heights: map<Id, nat> := map[];
    var visited := 0;
    var stack := [Enter(root, [], 0)];
    StartInv(h, root, lim);
    while stack != []
      invariant Inv(h, root, lim, State(stack, active, heights, log.items, visited))
      invariant log.cap == lim.errors
      decreases lim.nodes + 1 - visited, Waiting(h, stack), |stack|
    {
      if log.Exhausted() {
        break;
      }
      ghost var s := State(stack, active, heights, log.items, visited);
      var top := stack[|stack| - 1];
      var rest := stack[..|stack| - 1];
      assert stack == rest + [top];
      TopInHeap(h, root, lim, s, rest, top);
      stack := rest;
      if top.Enter? {
        visited := visited + 1;
        if visited > lim.nodes {
          TooManyVisits(h, root, lim, s);
          AppendedKeepsCap(log.items, lim.errors, NodeBudgetExceeded);
          log.Append(NodeBudgetExceeded);
          break;
        }
      }
      match top {
        case Enter(value, path, depth) =>
          var complaint := None;
          if !value.Ref? {
            complaint := ScalarComplaint(value, path, lim);
          } else if depth > lim.depth {
            complaint := Some(TooDeep(path));
          } else if value.id in active {
            complaint := Some(Cyclic(path));
          } else if value.id in heights {
            complaint := if depth + heights[value.id] > lim.depth then Some(TooDeep(path)) else None;
          } else {
            var id := value.id;
            var walk := if h[id].Dict? then IterateDict(id, 0, path, depth) else IterateList(id, 0, path, depth);
            ExpandKeepsInv(h, root, lim, s, rest, top, walk);
            active := active + {id};
            stack := stack + [Exit(id, path, depth, |log.items|)] + [walk];
            continue;
          }
          if complaint.Some? {
            BadEntry(h, root, lim, s, rest, top);
            EntryComplaint(h, root, lim, s, rest, top, complaint.value);
            log.Append(complaint.value);
          } else {
            SettleKeepsInv(h, root, lim, s, rest, top);
          }
        case IterateDict(id, pos, path, depth) =>
          if pos == |h[id].keys| {
            ExhaustedKeepsInv(h, root, lim, s, rest, top);
            continue;
          }
          var key := h[id].keys[pos];
          var walk := IterateDict(id, pos + 1, path, depth);
          stack := stack + [walk];
          var fault := KeyFault(key, path, lim);
          if fault.Some? {
            KeyComplaint(h, root, lim, s, rest, top, walk, fault.value);
            log.Append(fault.value);
            continue;
          }
          var enter := Enter(h[id].entries[key], path + [Field(key.text)], depth + 1);
          NextKeepsInv(h, root, lim, s, rest, top, walk, enter);
          stack := stack + [enter];
        case IterateList(id, pos, path, depth) =>
          if pos == |h[id].items| {
            ExhaustedKeepsInv(h, root, lim, s, rest, top);
            continue;
          }
          var walk := IterateList(id, pos + 1, path, depth);
          var enter := Enter(h[id].items[pos], path + [Index(pos)], depth + 1);
          NextKeepsInv(h, root, lim, s, rest, top, walk, enter);
          stack := stack + [walk] + [enter];
        case Exit(id, path, depth, errorCount) =>
          active := active - {id};
          if |log.items| == errorCount {
            CleanExit(h, root, lim, s, rest, top);
            var height := MaxChildHeight(h[id], heights, h[id].Degree());
            CachingKeepsHeights(h, heights, id, lim, height);
            heights := heights[id := height];
          }
          ExitKeepsInv(h, root, lim, s, rest, top, heights);
      }
    }
    errors := log.items;
    if stack == [] && errors == [] {
      NothingReportedMeansAccepted(h, root, lim, State(stack, active, heights, errors, visited));
    }
  }
}
