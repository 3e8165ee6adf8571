/** What the outcome of the tracking pass is, in terms of the messages: which of them become items, turns and the
    current request. */
module RequestOutcome {
  import opened RequestTracking

  // ----- what is said and asked

  /** A user turn with something said besides handoffs and control payloads. */
  predicate Speaks(r: Rules, m: Message) {
    m.role == "user" && r.strip(m.content) != "" && !r.handoff(m.content) && r.human(r.strip(m.content)) != ""
  }

  /** A turn that is no mere continuation. */
  predicate Asks(r: Rules, m: Message) {
    Speaks(r, m) && !r.weak(r.human(r.strip(m.content)))
  }

  predicate Replies(r: Rules, m: Message) {
    m.role == "assistant" && r.strip(m.content) != ""
  }

  /** What tells a task from another: its segment, white space apart. */
  function Mark(r: Rules, m: Message): string {
    r.squash(LastSubstantiveSegment(r, r.human(r.strip(m.content))))
  }

  ghost predicate AskedBefore(r: Rules, ms: seq<Message>, i: nat)
    requires i < |ms|
  {
    Asks(r, ms[i]) && Mark(r, ms[i]) != ""
    && exists j :: 0 <= j < i && Asks(r, ms[j]) && Mark(r, ms[j]) == Mark(r, ms[i])
  }

  lemma AskedBeforeIff(r: Rules, ms: seq<Message>, i: nat)
    requires i < |ms|
    ensures AskedBefore(r, ms, i) <==> Repeats(r, ms, i)
  {
    hide LastSubstantiveSegment;
    if AskedBefore(r, ms, i) {
      var j :| 0 <= j < i && Asks(r, ms[j]) && Mark(r, ms[j]) == Mark(r, ms[i]);
      assert TaskWith(r, ms[j], Fingerprint(r, ms[i]));
    }
    if Repeats(r, ms, i) {
      var j :| 0 <= j < i && TaskWith(r, ms[j], Fingerprint(r, ms[i]));
      assert Asks(r, ms[j]) && Mark(r, ms[j]) == Mark(r, ms[i]);
    }
  }

  /** The lines of a text that are neither blank nor a mere continuation, by position. */
  ghost function Instructions(r: Rules, lines: seq<string>): set<nat> {
    set k: nat | k < |lines| && lines[k] != "" && !r.weak(lines[k])
  }

  lemma {:induction false} InstructionsCounted(r: Rules, lines: seq<string>)
    ensures |SubstantiveLines(r, lines)| == |Instructions(r, lines)|
  {
    if lines == [] {
      assert Instructions(r, lines) == {};
    } else {
      var n := |lines| - 1;
      InstructionsCounted(r, lines[..n]);
      InstructionsGrow(r, lines, n);
      hide Instructions;
    }
  }

  lemma InstructionsGrow(r: Rules, lines: seq<string>, n: nat)
    requires n == |lines| - 1
    ensures |Instructions(r, lines)| ==
            |Instructions(r, lines[..n])| + if lines[n] != "" && !r.weak(lines[n]) then 1 else 0
  {
    assert Instructions(r, lines) ==
      Instructions(r, lines[..n]) + if lines[n] != "" && !r.weak(lines[n]) then {n} else {};
  }

  /** A text with three instructions or more is named by the last; any other by the whole text without the white space
      around it, or, if that is blank, by its last instruction. */
  lemma SegmentIs(r: Rules, text: string)
    ensures var lines, segment := r.lines(text), LastSubstantiveSegment(r, text);
            if |Instructions(r, lines)| >= 3 || (r.strip(text) == "" && Instructions(r, lines) != {}) then
              exists k: nat :: k in Instructions(r, lines) && segment == lines[k]
                               && forall j: nat :: k < j < |lines| ==> j !in Instructions(r, lines)
            else segment == r.strip(text)
  {
    var lines := r.lines(text);
    InstructionsCounted(r, lines);
    if Instructions(r, lines) != {} {
      var k := Last(Instructions(r, lines));
      forall j: nat | k < j < |lines| ensures !IsSubstantive(r, lines[j]) {
        assert j !in Instructions(r, lines);
      }
      assert LastSubstantiveAt(r, lines, k);
      SubstantiveLinesEndWith(r, lines, k);
    }
  }

  lemma {:induction false} Last(s: set<nat>) returns (k: nat)
    requires s != {}
    ensures k in s && forall j :: j in s ==> j <= k
  {
    k :| k in s;
    var rest := s - {k};
    assert forall j :: j in s ==> j == k || j in rest;
    if rest != {} {
      var m := Last(rest);
      k := if m > k then m else k;
    }
  }

  // ----- the items kept

  /** A message that is carried on: any that is not blank and no tool row, but of control payloads only to-do lists,
      and of task turns only those that do not repeat an earlier one. */
  ghost predicate Yields(r: Rules, ms: seq<Message>, i: nat)
    requires i < |ms|
  {
    var m, text := ms[i], r.strip(ms[i].content);
    && text != "" && m.role != "tool"
    && (m.role == "user" && !r.handoff(m.content) ==>
          if r.human(text) == "" then r.todo(text) else !AskedBefore(r, ms, i))
  }

  /** The item it becomes: its own role and text, without a control appendix, and where it came from. */
  function ItemFor(r: Rules, m: Message): Item {
    var text := r.strip(m.content);
    if m.role != "user" then Item(m.role, text, Conversation)
    else if r.handoff(m.content) then Item("user", text, Handoff)
    else if r.human(text) == "" then Item("user", text, RuntimeControl)
    else Item("user", r.human(text), Conversation)
  }

  ghost predicate YieldingAre(r: Rules, ms: seq<Message>, n: nat, ps: seq<nat>)
    requires n <= |ms|
  {
    && (forall k :: 0 <= k < |ps| ==> ps[k] < n)
    && (forall k, l :: 0 <= k < l < |ps| ==> ps[k] < ps[l])
    && (forall i: nat :: i < n ==> (i in ps <==> Yields(r, ms, i)))
  }

  ghost function ItemsFor(r: Rules, ms: seq<Message>, ps: seq<nat>): seq<Item>
    requires forall k :: 0 <= k < |ps| ==> ps[k] < |ms|
  {
    seq(|ps|, k requires 0 <= k < |ps| => ItemFor(r, ms[ps[k]]))
  }

  lemma OneItem(r: Rules, ms: seq<Message>, i: nat)
    requires i < |ms|
    ensures ItemsAt(r, ms, i) == if Yields(r, ms, i) then [ItemFor(r, ms[i])] else []
  {
    AskedBeforeIff(r, ms, i);
    hide Repeats, AskedBefore;
    assert IsControl(r, ms[i]) || IsRealUser(r, ms[i]) || IsHandoff(r, ms[i]) || ms[i].role != "user"
           || Text(r, ms[i]) == "";
  }

  lemma YieldingGrow(r: Rules, ms: seq<Message>, n: nat, ps: seq<nat>)
    requires n < |ms| && YieldingAre(r, ms, n, ps)
    ensures YieldingAre(r, ms, n + 1, if Yields(r, ms, n) then ps + [n] else ps)
  {
    hide Yields;
    forall i: nat | i < n + 1 ensures i in (if Yields(r, ms, n) then ps + [n] else ps) <==> Yields(r, ms, i) {
    }
  }

  lemma ItemsForAdds(r: Rules, ms: seq<Message>, ps: seq<nat>, i: nat)
    requires (forall k :: 0 <= k < |ps| ==> ps[k] < |ms|) && i < |ms|
    ensures ItemsFor(r, ms, ps + [i]) == ItemsFor(r, ms, ps) + [ItemFor(r, ms[i])]
  {
    hide ItemFor;
  }

  lemma {:induction false} Yielding(r: Rules, ms: seq<Message>, n: nat) returns (ps: seq<nat>)
    requires n <= |ms|
    ensures YieldingAre(r, ms, n, ps)
    ensures (forall k :: 0 <= k < |ps| ==> ps[k] < |ms|) && Items(r, ms, n) == ItemsFor(r, ms, ps)
  {
    hide Yields, YieldingAre, ItemFor, ItemsAt, ItemsFor;
    if n == 0 {
      ps := [];
      NoItems(r, ms);
    } else {
      var before := Yielding(r, ms, n - 1);
      YieldingGrow(r, ms, n - 1, before);
      OneItem(r, ms, n - 1);
      ItemsForAdds(r, ms, before, n - 1);
      ps := if Yields(r, ms, n - 1) then before + [n - 1] else before;
    }
  }

  lemma NoItems(r: Rules, ms: seq<Message>)
    ensures ItemsFor(r, ms, []) == [] && YieldingAre(r, ms, 0, [])
  {
  }

  /** The items are those of the messages carried on, in order, and then the capsules; if there are more than a positive
      limit, the last ones of these, up to the limit. */
  lemma KeptItemsAre(r: Rules, ms: seq<Message>, tailLimit: int, capsules: seq<Item>, c: Context)
    requires Tracks(r, ms, tailLimit, capsules, c)
    ensures exists ps: seq<nat> :: YieldingAre(r, ms, |ms|, ps) &&
              var stream := ItemsFor(r, ms, ps) + capsules;
              && |c.items| == (if tailLimit <= 0 || |stream| <= tailLimit then |stream| else tailLimit)
              && c.items == stream[|stream| - |c.items|..]
  {
    var ps := Yielding(r, ms, |ms|);
    hide YieldingAre, ItemsFor, Items, RequestIs, LatestIs, TurnsAre;
    assert YieldingAre(r, ms, |ms|, ps);
    var stream := ItemsFor(r, ms, ps) + capsules;
    assert stream[0..] == stream;
  }

  /** So the newest message carried on, without capsules, is the last item kept, under any limit. */
  lemma NewestIsKept(r: Rules, ms: seq<Message>, tailLimit: int, c: Context)
    requires Tracks(r, ms, tailLimit, [], c) && ms != [] && Yields(r, ms, |ms| - 1)
    ensures c.items != [] && c.items[|c.items| - 1] == ItemFor(r, ms[|ms| - 1])
  {
    OneItem(r, ms, |ms| - 1);
    hide RequestIs, LatestIs, TurnsAre, Yields, ItemFor, ItemsAt;
    assert Items(r, ms, |ms|) + [] == Items(r, ms, |ms|);
  }

  /** The two counters: handoffs, and task turns that repeat an earlier one. */
  lemma CountersAre(r: Rules, ms: seq<Message>, tailLimit: int, capsules: seq<Item>, c: Context)
    requires Tracks(r, ms, tailLimit, capsules, c)
    ensures c.ignoredHandoffs ==
            |set i | 0 <= i < |ms| && ms[i].role == "user" && r.strip(ms[i].content) != "" && r.handoff(ms[i].content)|
    ensures c.repeated == |set i | 0 <= i < |ms| && AskedBefore(r, ms, i)|
  {
    HandoffsCounted(r, ms, |ms|);
    RepeatsCounted(r, ms, |ms|);
    assert (set i | 0 <= i < |ms| && IsHandoff(r, ms[i])) ==
      set i | 0 <= i < |ms| && ms[i].role == "user" && r.strip(ms[i].content) != "" && r.handoff(ms[i].content);
    forall i | 0 <= i < |ms| ensures AskedBefore(r, ms, i) <==> Repeats(r, ms, i) {
      AskedBeforeIff(r, ms, i);
    }
    assert (set i | 0 <= i < |ms| && Repeats(r, ms, i)) == set i | 0 <= i < |ms| && AskedBefore(r, ms, i);
    hide RequestIs, LatestIs, TurnsAre, Items, Repeats, AskedBefore;
  }

  lemma {:induction false} HandoffsCounted(r: Rules, ms: seq<Message>, n: nat)
    requires n <= |ms|
    ensures HandoffCount(r, ms, n) == |set i | 0 <= i < n && IsHandoff(r, ms[i])|
  {
    hide IsHandoff;
    var counted := set i | 0 <= i < n && IsHandoff(r, ms[i]);
    if n > 0 {
      HandoffsCounted(r, ms, n - 1);
      var before := set i | 0 <= i < n - 1 && IsHandoff(r, ms[i]);
      assert counted == before + if IsHandoff(r, ms[n - 1]) then {n - 1} else {};
    } else {
      assert counted == {};
    }
  }

  lemma {:induction false} RepeatsCounted(r: Rules, ms: seq<Message>, n: nat)
    requires n <= |ms|
    ensures RepeatCount(r, ms, n) == |set i | 0 <= i < n && Repeats(r, ms, i)|
  {
    hide Repeats;
    var counted := set i | 0 <= i < n && Repeats(r, ms, i);
    if n > 0 {
      RepeatsCounted(r, ms, n - 1);
      var before := set i | 0 <= i < n - 1 && Repeats(r, ms, i);
      assert counted == before + if Repeats(r, ms, n - 1) then {n - 1} else {};
    } else {
      assert counted == {};
    }
  }

  // ----- the dialogue, in terms of the messages

  /** The current request is the segment of the last turn that asks, and the latest message what was said last. */
  lemma RequestAndLatestAre(r: Rules, ms: seq<Message>, tailLimit: int, capsules: seq<Item>, c: Context, p: nat)
    requires Tracks(r, ms, tailLimit, capsules, c) && p < |ms|
    ensures Asks(r, ms[p]) && (forall j :: p < j < |ms| ==> !Asks(r, ms[j])) ==>
              c.request == LastSubstantiveSegment(r, r.human(r.strip(ms[p].content)))
    ensures Speaks(r, ms[p]) && (forall j :: p < j < |ms| ==> !Speaks(r, ms[j])) ==>
              c.latest == r.human(r.strip(ms[p].content))
    ensures (forall j :: 0 <= j < |ms| ==> !Asks(r, ms[j])) ==> c.request == ""
    ensures (forall j :: 0 <= j < |ms| ==> !Speaks(r, ms[j])) ==> c.latest == ""
  {
    hide LastSubstantiveSegment, TurnsAre, Items, HandoffCount, RepeatCount;
    assert forall m :: IsTask(r, m) <==> Asks(r, m);
    assert forall m :: IsRealUser(r, m) <==> Speaks(r, m);
    assert LastTask(r, ms, |ms|, p) <==> Asks(r, ms[p]) && forall j :: p < j < |ms| ==> !Asks(r, ms[j]);
    assert LastReal(r, ms, |ms|, p) <==> Speaks(r, ms[p]) && forall j :: p < j < |ms| ==> !Speaks(r, ms[j]);
  }

  /** The turns at the positions `ps`: every turn said that was not asked before, in order. */
  ghost predicate TurnsBegin(r: Rules, ms: seq<Message>, ps: seq<nat>) {
    && (forall k :: 0 <= k < |ps| ==> ps[k] < |ms|)
    && (forall k, l :: 0 <= k < l < |ps| ==> ps[k] < ps[l])
    && (forall i: nat :: i < |ms| ==> (i in ps <==> Speaks(r, ms[i]) && !AskedBefore(r, ms, i)))
  }

  /** The first reply after position `p` and before `end` is at `j`. */
  ghost predicate FirstReply(r: Rules, ms: seq<Message>, p: nat, end: nat, j: nat)
    requires end <= |ms|
  {
    p < j < end && Replies(r, ms[j]) && forall i :: p < i < j ==> !Replies(r, ms[i])
  }

  ghost predicate TurnIs(r: Rules, ms: seq<Message>, p: nat, end: nat, t: DialogueTurn)
    requires p < end <= |ms|
  {
    && t.user == r.human(r.strip(ms[p].content))
    && (forall j: nat :: FirstReply(r, ms, p, end, j) ==> t.assistant == r.strip(ms[j].content))
    && ((forall j :: p < j < end ==> !Replies(r, ms[j])) ==> t.assistant == "")
  }

  lemma OpeningsBegin(r: Rules, ms: seq<Message>)
    ensures TurnsBegin(r, ms, Openings(r, ms, |ms|))
  {
    hide Repeats, AskedBefore;
    forall i: nat | i < |ms| ensures OpensTurn(r, ms, i) <==> Speaks(r, ms[i]) && !AskedBefore(r, ms, i) {
      AskedBeforeIff(r, ms, i);
    }
  }

  lemma NoOpeningBetween(r: Rules, ms: seq<Message>, k: nat, j: nat)
    requires var ps := Openings(r, ms, |ms|);
             k < |ps| && ps[k] < j < |ms| && (k + 1 < |ps| ==> j < ps[k + 1])
    ensures !OpensTurn(r, ms, j)
  {
    hide OpensTurn;
    var ps := Openings(r, ms, |ms|);
    forall l | 0 <= l < |ps| ensures ps[l] != j {
      assert l < k ==> ps[l] < ps[k];
      assert l > k + 1 ==> ps[k + 1] < ps[l];
    }
  }

  lemma NoAnswerBeyond(r: Rules, ms: seq<Message>, k: nat, j: nat)
    requires var ps := Openings(r, ms, |ms|);
             k + 1 < |ps| && AnswersAt(r, ms, ps[k], |ms|, j)
    ensures j < Openings(r, ms, |ms|)[k + 1]
  {
    var ps := Openings(r, ms, |ms|);
    var next := ps[k + 1];
    assert OpensTurn(r, ms, next) && ps[k] < next;
    NoReplyOpens(r, ms, next);
    hide OpensTurn, IsReply, Openings;
  }

  lemma OneTurnIs(r: Rules, ms: seq<Message>, k: nat, t: DialogueTurn)
    requires var ps := Openings(r, ms, |ms|);
             k < |ps| && TurnAt(r, ms, |ms|, ps[k], t)
    ensures var ps := Openings(r, ms, |ms|);
            TurnIs(r, ms, ps[k], if k + 1 < |ps| then ps[k + 1] else |ms|, t)
  {
    var ps := Openings(r, ms, |ms|);
    var p, end := ps[k], if k + 1 < |ps| then ps[k + 1] else |ms|;
    assert forall m :: IsReply(r, m) <==> Replies(r, m);
    hide OpensTurn, Replies, IsReply;
    forall j: nat | p < j < end ensures !OpensTurn(r, ms, j) {
      NoOpeningBetween(r, ms, k, j);
    }
    forall j: nat ensures AnswersAt(r, ms, p, |ms|, j) <==> FirstReply(r, ms, p, end, j) {
      if k + 1 < |ps| && AnswersAt(r, ms, p, |ms|, j) {
        NoAnswerBeyond(r, ms, k, j);
      }
      hide Openings;
    }
    hide AnswersAt, Openings;
  }

  lemma NoReplyOpens(r: Rules, ms: seq<Message>, i: nat)
    requires i < |ms| && OpensTurn(r, ms, i)
    ensures !IsReply(r, ms[i])
  {
  }

  /** The dialogue turns: one for each turn said that was not asked before, in order, with the first reply before the
      next. */
  lemma TurnsWrittenOut(r: Rules, ms: seq<Message>, tailLimit: int, capsules: seq<Item>, c: Context)
    returns (ps: seq<nat>)
    requires Tracks(r, ms, tailLimit, capsules, c)
    ensures TurnsBegin(r, ms, ps) && |c.turns| == |ps|
    ensures forall k :: 0 <= k < |ps| ==> TurnIs(r, ms, ps[k], if k + 1 < |ps| then ps[k + 1] else |ms|, c.turns[k])
  {
    ps := Openings(r, ms, |ms|);
    OpeningsBegin(r, ms);
    hide Speaks, AskedBefore, Openings, RequestIs, LatestIs, Items, HandoffCount, RepeatCount, Trimmed, TurnAt, TurnIs;
    forall k | 0 <= k < |ps| ensures TurnIs(r, ms, ps[k], if k + 1 < |ps| then ps[k + 1] else |ms|, c.turns[k]) {
      OneTurnIs(r, ms, k, c.turns[k]);
    }
  }
}
